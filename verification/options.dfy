/** The conventional optional value, used for "absent" results and for
    operations that the JavaScript runtime would abort with a TypeError. */
module Options {

  datatype Option<+T> = None | Some(value: T)
}
