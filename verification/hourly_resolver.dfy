/** Looking values up in the forecast's `hourly` section: the candidate-key
    resolver `pickHourlyValue` and the index of the hour that matches the
    `current_weather` reading. */
module HourlyResolver {
  import opened JsValues

  /** Key `k` supplies a value at `index`: `hourly` is truthy, `hourly[k]`
      is an array, and its element at `index` is not `undefined`. */
  predicate Supplies(hourly: JsValue, k: string, index: int) {
    && Truthy(hourly)
    && Get(hourly, k).Arr?
    && ElementAt(Get(hourly, k), index) != Undefined
  }

  /** `pickHourlyValue(hourly, keys, index)`: tries the keys in list order
      and returns the element at `index` of the first one that supplies it,
      or `undefined` (absent) when none does. A `null` element counts as
      present. */
  function PickHourlyValue(hourly: JsValue, keys: seq<string>, index: int): (r: JsValue)
    ensures index < 0 || !Truthy(hourly) || keys == [] ==> r == Undefined
  {
    if |keys| == 0 then Undefined
    else if Supplies(hourly, keys[0], index) then ElementAt(Get(hourly, keys[0]), index)
    else PickHourlyValue(hourly, keys[1..], index)
  }

  /** The resolver's result is present exactly when some key supplies a
      value, and then it is the value of the first such key in list order;
      nothing else decides it. */
  lemma {:induction false} PickFindsFirstSupplier(hourly: JsValue, keys: seq<string>, index: int)
    ensures var r := PickHourlyValue(hourly, keys, index);
            && (r != Undefined <==> exists j :: 0 <= j < |keys| && Supplies(hourly, keys[j], index))
            && (r != Undefined ==>
                  exists j :: && 0 <= j < |keys|
                              && Supplies(hourly, keys[j], index)
                              && r == ElementAt(Get(hourly, keys[j]), index)
                              && forall i :: 0 <= i < j ==> !Supplies(hourly, keys[i], index))
  {
    if |keys| > 0 && !Supplies(hourly, keys[0], index) {
      PickFindsFirstSupplier(hourly, keys[1..], index);
      var r := PickHourlyValue(hourly, keys, index);
      assert forall j :: 1 <= j < |keys| ==> keys[1..][j - 1] == keys[j];
      if r != Undefined {
        var j :| && 0 <= j < |keys[1..]|
                 && Supplies(hourly, keys[1..][j], index)
                 && r == ElementAt(Get(hourly, keys[1..][j]), index)
                 && forall i :: 0 <= i < j ==> !Supplies(hourly, keys[1..][i], index);
        assert Supplies(hourly, keys[j + 1], index);
      }
    } else if |keys| > 0 {
      assert Supplies(hourly, keys[0], index);
    }
  }

  /** `xs.indexOf(v)`: the first position holding a value strictly equal to
      `v`, or -1 when there is none. */
  function IndexOf(xs: seq<JsValue>, v: JsValue): (r: int)
    ensures -1 <= r < |xs|
    ensures r >= 0 ==> StrictEq(xs[r], v) && forall j :: 0 <= j < r ==> !StrictEq(xs[j], v)
    ensures r == -1 <==> forall j :: 0 <= j < |xs| ==> !StrictEq(xs[j], v)
  {
    if |xs| == 0 then -1
    else if StrictEq(xs[0], v) then 0
    else
      var r := IndexOf(xs[1..], v);
      assert forall j :: 1 <= j < |xs| ==> xs[1..][j - 1] == xs[j];
      if r == -1 then -1 else r + 1
  }

  /** Some entry of the hourly time series strictly equals the current
      reading's time. */
  predicate TimeListed(times: seq<JsValue>, t: JsValue) {
    exists j :: 0 <= j < |times| && StrictEq(times[j], t)
  }

  /** The alignment index computed at the top of the snapshot builder:
      the position of `cw.time` in `hourly.time` when it is listed there
      (and truthy); otherwise the last position of a non-empty
      `hourly.time`; otherwise -1, meaning no hour is usable. */
  function AlignmentIndex(cw: JsValue, hourly: JsValue): (idx: int)
    ensures var times := Get(hourly, "time");
            && -1 <= idx
            && (idx == -1 <==> !(times.Arr? && |times.items| > 0))
            && (times.Arr? ==> idx < |times.items|)
            && (times.Arr? && Truthy(Get(cw, "time")) && TimeListed(times.items, Get(cw, "time")) ==>
                  && StrictEq(times.items[idx], Get(cw, "time"))
                  && forall j :: 0 <= j < idx ==> !StrictEq(times.items[j], Get(cw, "time")))
            && (times.Arr? && |times.items| > 0 &&
                !(Truthy(Get(cw, "time")) && TimeListed(times.items, Get(cw, "time"))) ==>
                  idx == |times.items| - 1)
  {
    var times := Get(hourly, "time");
    var found := if times.Arr? && Truthy(Get(cw, "time")) then IndexOf(times.items, Get(cw, "time")) else -1;
    if found == -1 && times.Arr? && |times.items| > 0 then |times.items| - 1 else found
  }
}
