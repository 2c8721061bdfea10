/** The weather snapshot builder: the part of the forecast fetch that turns
    the parsed Open-Meteo payload into the fully populated `CurrentWeather`
    record the display shows. */
module WeatherSnapshot {
  import opened JsValues
  import opened Options
  import opened HourlyResolver

  /** The `CurrentWeather` record. Each field holds whatever the payload
      supplied (the source casts it to a number without checking), so
      fields are JavaScript values. */
  datatype Snapshot = Snapshot(
    time: JsValue,
    temperature: JsValue,
    apparentTemperature: JsValue,
    relativeHumidity: JsValue,
    precipitation: JsValue,
    rain: JsValue,
    showers: JsValue,
    snowfall: JsValue,
    cloudCover: JsValue,
    windSpeed: JsValue,
    windGusts: JsValue,
    windDirection: JsValue,
    weatherCode: JsValue)

  /** The snapshot of a payload that carries no data at all. */
  const DefaultSnapshot: Snapshot :=
    Snapshot(Str(""), Zero, Zero, Zero, Zero, Zero, Zero, Zero, Zero, Zero, Zero, Zero, Zero)

  // The alternate hourly key names, in the order the source tries them.
  const ApparentKeys: seq<string> := ["apparent_temperature", "apparentTemperature"]
  const HumidityKeys: seq<string> := ["relativehumidity_2m", "relative_humidity_2m"]
  const CloudKeys: seq<string> := ["cloudcover", "cloud_cover"]
  const WindSpeedKeys: seq<string> := ["windspeed_10m", "wind_speed_10m"]
  const WindGustKeys: seq<string> := ["windgusts_10m", "wind_gusts_10m"]
  const WindDirectionKeys: seq<string> := ["winddirection_10m", "wind_direction_10m"]

  /** No field of the snapshot is `null` or `undefined`. */
  predicate Populated(s: Snapshot) {
    && !IsNullish(s.time) && !IsNullish(s.temperature) && !IsNullish(s.apparentTemperature)
    && !IsNullish(s.relativeHumidity) && !IsNullish(s.precipitation) && !IsNullish(s.rain)
    && !IsNullish(s.showers) && !IsNullish(s.snowfall) && !IsNullish(s.cloudCover)
    && !IsNullish(s.windSpeed) && !IsNullish(s.windGusts) && !IsNullish(s.windDirection)
    && !IsNullish(s.weatherCode)
  }

  /** `r` is what a fallback chain `c0 ?? c1 ?? ... ?? 0` settles on: the
      first candidate that is neither `null` nor `undefined`, or 0 when every
      candidate is one of those. */
  ghost predicate ResolvesTo(r: JsValue, candidates: seq<JsValue>) {
    || (exists i :: && 0 <= i < |candidates|
                     && !IsNullish(candidates[i]) && r == candidates[i]
                     && forall j :: 0 <= j < i ==> IsNullish(candidates[j]))
    || ((forall i :: 0 <= i < |candidates| ==> IsNullish(candidates[i])) && r == Zero)
  }

  lemma Resolves1(a: JsValue)
    ensures ResolvesTo(Coalesce(a, Zero), [a])
  {
    if !IsNullish(a) {
      assert [a][0] == a;
    }
  }

  lemma Resolves2(a: JsValue, b: JsValue)
    ensures ResolvesTo(Coalesce(Coalesce(a, b), Zero), [a, b])
  {
    var c := [a, b];
    if !IsNullish(a) {
      assert c[0] == a;
    } else if !IsNullish(b) {
      assert c[1] == b && IsNullish(c[0]);
    }
  }

  lemma Resolves3(a: JsValue, b: JsValue, d: JsValue)
    ensures ResolvesTo(Coalesce(Coalesce(Coalesce(a, b), d), Zero), [a, b, d])
  {
    var c := [a, b, d];
    if !IsNullish(a) {
      assert c[0] == a;
    } else if !IsNullish(b) {
      assert c[1] == b && IsNullish(c[0]);
    } else if !IsNullish(d) {
      assert c[2] == d && IsNullish(c[0]) && IsNullish(c[1]);
    }
  }

  /** `data.current_weather || {}` */
  function CurrentSection(data: JsValue): (cw: JsValue)
    ensures Truthy(cw)
  {
    Or(Get(data, "current_weather"), EmptyObject)
  }

  /** `data.hourly || {}` */
  function HourlySection(data: JsValue): (hourly: JsValue)
    ensures Truthy(hourly)
  {
    Or(Get(data, "hourly"), EmptyObject)
  }

  /** The source indexes `hourly.temperature_2m` directly rather than
      through `pickHourlyValue`; on a truthy `hourly` the two agree. */
  lemma DirectIndexIsPick(hourly: JsValue, idx: int)
    requires Truthy(hourly)
    ensures (if Get(hourly, "temperature_2m").Arr? then ElementAt(Get(hourly, "temperature_2m"), idx) else Undefined)
            == PickHourlyValue(hourly, ["temperature_2m"], idx)
  {
    assert ["temperature_2m"][0] == "temperature_2m";
  }

  /** The snapshot built from the parsed forecast `data`, or `None` when
      the source's `data.current_weather` throws because `data` is `null`
      (the fetch then fails and the previous snapshot stays). Every field is
      populated, and the timestamp is the current reading's when it is truthy. */
  function BuildSnapshot(data: JsValue): (r: Option<Snapshot>)
    ensures r.None? <==> IsNullish(data)
    ensures r.Some? ==> Populated(r.value)
    ensures r.Some? ==>
              var time := Get(CurrentSection(data), "time");
              && (Truthy(time) ==> r.value.time == time)
              && (!Truthy(time) ==> r.value.time == Str(""))
  {
    if IsNullish(data) then None
    else
      var cw := CurrentSection(data);
      var hourly := HourlySection(data);
      var idx := AlignmentIndex(cw, hourly);
      var temps := Get(hourly, "temperature_2m");
      Some(Snapshot(
        time := Or(Get(cw, "time"), Str("")),
        temperature :=
          Coalesce(Coalesce(Get(cw, "temperature"), if temps.Arr? then ElementAt(temps, idx) else Undefined), Zero),
        apparentTemperature :=
          Coalesce(Coalesce(Coalesce(Get(cw, "apparent_temperature"), PickHourlyValue(hourly, ApparentKeys, idx)),
                            Get(cw, "temperature")), Zero),
        relativeHumidity := Coalesce(PickHourlyValue(hourly, HumidityKeys, idx), Zero),
        precipitation := Coalesce(PickHourlyValue(hourly, ["precipitation"], idx), Zero),
        rain := Coalesce(PickHourlyValue(hourly, ["rain"], idx), Zero),
        showers := Coalesce(PickHourlyValue(hourly, ["showers"], idx), Zero),
        snowfall := Coalesce(PickHourlyValue(hourly, ["snowfall"], idx), Zero),
        cloudCover := Coalesce(Coalesce(PickHourlyValue(hourly, CloudKeys, idx), Get(cw, "cloudcover")), Zero),
        windSpeed := Coalesce(Coalesce(Get(cw, "windspeed"), PickHourlyValue(hourly, WindSpeedKeys, idx)), Zero),
        windGusts := Coalesce(Coalesce(Get(cw, "windgusts"), PickHourlyValue(hourly, WindGustKeys, idx)), Zero),
        windDirection :=
          Coalesce(Coalesce(Get(cw, "winddirection"), PickHourlyValue(hourly, WindDirectionKeys, idx)), Zero),
        weatherCode := Coalesce(Coalesce(Get(cw, "weathercode"), Get(cw, "weather_code")), Zero)))
  }

  /** Each field of the snapshot settles on the first present value of its
      fallback chain: the current section first for temperature, wind and
      weather code; the hourly section (at the alignment index) first for
      cloud cover; the hourly section alone for humidity and precipitation;
      and apparent temperature degrades to the plain temperature before 0. */
  lemma {:induction false} FallbackChains(data: JsValue)
    requires !IsNullish(data)
    ensures var cw := CurrentSection(data);
            var hourly := HourlySection(data);
            var idx := AlignmentIndex(cw, hourly);
            var s := BuildSnapshot(data).value;
            && ResolvesTo(s.temperature,
                          [Get(cw, "temperature"), PickHourlyValue(hourly, ["temperature_2m"], idx)])
            && ResolvesTo(s.apparentTemperature,
                          [Get(cw, "apparent_temperature"), PickHourlyValue(hourly, ApparentKeys, idx),
                           Get(cw, "temperature")])
            && ResolvesTo(s.relativeHumidity, [PickHourlyValue(hourly, HumidityKeys, idx)])
            && ResolvesTo(s.precipitation, [PickHourlyValue(hourly, ["precipitation"], idx)])
            && ResolvesTo(s.rain, [PickHourlyValue(hourly, ["rain"], idx)])
            && ResolvesTo(s.showers, [PickHourlyValue(hourly, ["showers"], idx)])
            && ResolvesTo(s.snowfall, [PickHourlyValue(hourly, ["snowfall"], idx)])
            && ResolvesTo(s.cloudCover, [PickHourlyValue(hourly, CloudKeys, idx), Get(cw, "cloudcover")])
            && ResolvesTo(s.windSpeed, [Get(cw, "windspeed"), PickHourlyValue(hourly, WindSpeedKeys, idx)])
            && ResolvesTo(s.windGusts, [Get(cw, "windgusts"), PickHourlyValue(hourly, WindGustKeys, idx)])
            && ResolvesTo(s.windDirection,
                          [Get(cw, "winddirection"), PickHourlyValue(hourly, WindDirectionKeys, idx)])
            && ResolvesTo(s.weatherCode, [Get(cw, "weathercode"), Get(cw, "weather_code")])
  {
    var cw := CurrentSection(data);
    var hourly := HourlySection(data);
    var idx := AlignmentIndex(cw, hourly);
    var temps := Get(hourly, "temperature_2m");
    var hourlyTemp := if temps.Arr? then ElementAt(temps, idx) else Undefined;
    DirectIndexIsPick(hourly, idx);
    Resolves2(Get(cw, "temperature"), hourlyTemp);
    Resolves3(Get(cw, "apparent_temperature"), PickHourlyValue(hourly, ApparentKeys, idx), Get(cw, "temperature"));
    Resolves1(PickHourlyValue(hourly, HumidityKeys, idx));
    Resolves1(PickHourlyValue(hourly, ["precipitation"], idx));
    Resolves1(PickHourlyValue(hourly, ["rain"], idx));
    Resolves1(PickHourlyValue(hourly, ["showers"], idx));
    Resolves1(PickHourlyValue(hourly, ["snowfall"], idx));
    Resolves2(PickHourlyValue(hourly, CloudKeys, idx), Get(cw, "cloudcover"));
    Resolves2(Get(cw, "windspeed"), PickHourlyValue(hourly, WindSpeedKeys, idx));
    Resolves2(Get(cw, "windgusts"), PickHourlyValue(hourly, WindGustKeys, idx));
    Resolves2(Get(cw, "winddirection"), PickHourlyValue(hourly, WindDirectionKeys, idx));
    Resolves2(Get(cw, "weathercode"), Get(cw, "weather_code"));
  }

  lemma FirstPresentWins(r: JsValue, candidates: seq<JsValue>)
    requires ResolvesTo(r, candidates)
    requires |candidates| > 0 && !IsNullish(candidates[0])
    ensures r == candidates[0]
  {
    if exists i :: && 0 <= i < |candidates|
                   && !IsNullish(candidates[i]) && r == candidates[i]
                   && forall j :: 0 <= j < i ==> IsNullish(candidates[j]) {
      var i :| && 0 <= i < |candidates|
               && !IsNullish(candidates[i]) && r == candidates[i]
               && forall j :: 0 <= j < i ==> IsNullish(candidates[j]);
      assert i == 0;
    }
  }

  lemma AbsentIsSkipped(r: JsValue, candidates: seq<JsValue>)
    requires ResolvesTo(r, candidates)
    requires |candidates| > 0 && IsNullish(candidates[0])
    ensures ResolvesTo(r, candidates[1..])
  {
    var rest := candidates[1..];
    if exists i :: && 0 <= i < |candidates|
                   && !IsNullish(candidates[i]) && r == candidates[i]
                   && forall j :: 0 <= j < i ==> IsNullish(candidates[j]) {
      var i :| && 0 <= i < |candidates|
               && !IsNullish(candidates[i]) && r == candidates[i]
               && forall j :: 0 <= j < i ==> IsNullish(candidates[j]);
      assert rest[i - 1] == candidates[i];
      assert forall j :: 0 <= j < i - 1 ==> rest[j] == candidates[j + 1];
    } else {
      assert forall i :: 0 <= i < |rest| ==> rest[i] == candidates[i + 1];
    }
  }

  /** Current-section precedence: a temperature, wind speed, gust or
      direction reading present in `current_weather` is copied into the
      snapshot unchanged, whatever the hourly section says; the weather code
      comes from `weathercode`, then `weather_code`, then 0. */
  lemma {:induction false} CurrentReadingWins(data: JsValue)
    requires !IsNullish(data)
    ensures var s := BuildSnapshot(data).value;
            var cw := CurrentSection(data);
            && (!IsNullish(Get(cw, "temperature")) ==> s.temperature == Get(cw, "temperature"))
            && (!IsNullish(Get(cw, "windspeed")) ==> s.windSpeed == Get(cw, "windspeed"))
            && (!IsNullish(Get(cw, "windgusts")) ==> s.windGusts == Get(cw, "windgusts"))
            && (!IsNullish(Get(cw, "winddirection")) ==> s.windDirection == Get(cw, "winddirection"))
            && (!IsNullish(Get(cw, "weathercode")) ==> s.weatherCode == Get(cw, "weathercode"))
            && (IsNullish(Get(cw, "weathercode")) && !IsNullish(Get(cw, "weather_code")) ==>
                  s.weatherCode == Get(cw, "weather_code"))
            && (IsNullish(Get(cw, "weathercode")) && IsNullish(Get(cw, "weather_code")) ==>
                  s.weatherCode == Zero)
  {
    FallbackChains(data);
    var s := BuildSnapshot(data).value;
    var cw := CurrentSection(data);
    var hourly := HourlySection(data);
    var idx := AlignmentIndex(cw, hourly);
    var t := [Get(cw, "temperature"), PickHourlyValue(hourly, ["temperature_2m"], idx)];
    if !IsNullish(t[0]) { FirstPresentWins(s.temperature, t); }
    var ws := [Get(cw, "windspeed"), PickHourlyValue(hourly, WindSpeedKeys, idx)];
    if !IsNullish(ws[0]) { FirstPresentWins(s.windSpeed, ws); }
    var wg := [Get(cw, "windgusts"), PickHourlyValue(hourly, WindGustKeys, idx)];
    if !IsNullish(wg[0]) { FirstPresentWins(s.windGusts, wg); }
    var wd := [Get(cw, "winddirection"), PickHourlyValue(hourly, WindDirectionKeys, idx)];
    if !IsNullish(wd[0]) { FirstPresentWins(s.windDirection, wd); }
    var wc := [Get(cw, "weathercode"), Get(cw, "weather_code")];
    if !IsNullish(wc[0]) {
      FirstPresentWins(s.weatherCode, wc);
    } else {
      AbsentIsSkipped(s.weatherCode, wc);
      if !IsNullish(wc[1]) {
        FirstPresentWins(s.weatherCode, wc[1..]);
      }
    }
  }

  /** Cloud cover prefers the hourly reading (`cloudcover`, then
      `cloud_cover`) over `current_weather.cloudcover`; apparent temperature
      prefers `current_weather.apparent_temperature`, then the hourly keys,
      then degrades to the plain current temperature before 0. */
  lemma {:induction false} CloudCoverAndFeelsLike(data: JsValue)
    requires !IsNullish(data)
    ensures var s := BuildSnapshot(data).value;
            var cw := CurrentSection(data);
            var hourly := HourlySection(data);
            var idx := AlignmentIndex(cw, hourly);
            var cloud := PickHourlyValue(hourly, CloudKeys, idx);
            var feels := PickHourlyValue(hourly, ApparentKeys, idx);
            && (!IsNullish(cloud) ==> s.cloudCover == cloud)
            && (IsNullish(cloud) && !IsNullish(Get(cw, "cloudcover")) ==> s.cloudCover == Get(cw, "cloudcover"))
            && (!IsNullish(Get(cw, "apparent_temperature")) ==> s.apparentTemperature == Get(cw, "apparent_temperature"))
            && (IsNullish(Get(cw, "apparent_temperature")) && !IsNullish(feels) ==> s.apparentTemperature == feels)
            && ((IsNullish(Get(cw, "apparent_temperature")) && IsNullish(feels) && !IsNullish(Get(cw, "temperature")))
                  ==> s.apparentTemperature == Get(cw, "temperature"))
  {
    FallbackChains(data);
    var s := BuildSnapshot(data).value;
    var cw := CurrentSection(data);
    var hourly := HourlySection(data);
    var idx := AlignmentIndex(cw, hourly);
    var c := [PickHourlyValue(hourly, CloudKeys, idx), Get(cw, "cloudcover")];
    if !IsNullish(c[0]) {
      FirstPresentWins(s.cloudCover, c);
    } else {
      AbsentIsSkipped(s.cloudCover, c);
      if !IsNullish(c[1]) { FirstPresentWins(s.cloudCover, c[1..]); }
    }
    var a := [Get(cw, "apparent_temperature"), PickHourlyValue(hourly, ApparentKeys, idx), Get(cw, "temperature")];
    if !IsNullish(a[0]) {
      FirstPresentWins(s.apparentTemperature, a);
    } else {
      AbsentIsSkipped(s.apparentTemperature, a);
      var a1 := a[1..];
      if !IsNullish(a1[0]) {
        FirstPresentWins(s.apparentTemperature, a1);
      } else {
        AbsentIsSkipped(s.apparentTemperature, a1);
        if !IsNullish(a1[1..][0]) { FirstPresentWins(s.apparentTemperature, a1[1..]); }
      }
    }
  }

  /** With no usable hour (alignment index -1, e.g. an empty or missing
      `hourly.time`) every hourly lookup is absent: humidity and
      precipitation are 0, and the other fields fall back to the current
      section or 0. */
  lemma {:induction false} NoAlignedHourMeansFallbacks(data: JsValue)
    requires !IsNullish(data)
    requires AlignmentIndex(CurrentSection(data), HourlySection(data)) == -1
    ensures var s := BuildSnapshot(data).value;
            var cw := CurrentSection(data);
            && s.relativeHumidity == Zero && s.precipitation == Zero && s.rain == Zero
            && s.showers == Zero && s.snowfall == Zero
            && s.temperature == Coalesce(Get(cw, "temperature"), Zero)
            && s.cloudCover == Coalesce(Get(cw, "cloudcover"), Zero)
            && s.windSpeed == Coalesce(Get(cw, "windspeed"), Zero)
            && s.windGusts == Coalesce(Get(cw, "windgusts"), Zero)
            && s.windDirection == Coalesce(Get(cw, "winddirection"), Zero)
            && s.apparentTemperature ==
                 Coalesce(Coalesce(Get(cw, "apparent_temperature"), Get(cw, "temperature")), Zero)
  {
  }

  /** A payload with neither a `current_weather` nor an `hourly` section
      (an empty object, say) yields the all-default snapshot. */
  lemma {:induction false} EmptyPayloadGivesDefaults(data: JsValue)
    requires !IsNullish(data)
    requires !Truthy(Get(data, "current_weather")) && !Truthy(Get(data, "hourly"))
    ensures BuildSnapshot(data) == Some(DefaultSnapshot)
  {
    var hourly := HourlySection(data);
    assert hourly == EmptyObject;
    assert AlignmentIndex(CurrentSection(data), hourly) == -1;
  }

  /** A well-formed `current_weather` section: every entry other than
      `time` is a number or `null`. A section that is not an object carries
      no entries and is trivially well-formed. */
  predicate NumericCurrent(section: JsValue) {
    section.Obj? ==>
      forall k :: k in section.fields && k != "time" ==> IsNumOrNullish(section.fields[k])
  }

  /** A well-formed `hourly` section: every array entry other than `time`
      holds only numbers and `null`s. */
  predicate NumericHourly(section: JsValue) {
    section.Obj? ==>
      forall k :: k in section.fields && k != "time" && section.fields[k].Arr? ==>
        forall i :: 0 <= i < |section.fields[k].items| ==> IsNumOrNullish(section.fields[k].items[i])
  }

  lemma {:induction false} PickFromNumericSection(hourly: JsValue, keys: seq<string>, idx: int)
    requires NumericHourly(hourly) && "time" !in keys
    ensures IsNumOrNullish(PickHourlyValue(hourly, keys, idx))
  {
    var r := PickHourlyValue(hourly, keys, idx);
    PickFindsFirstSupplier(hourly, keys, idx);
    if r != Undefined {
      var j :| && 0 <= j < |keys|
               && Supplies(hourly, keys[j], idx)
               && r == ElementAt(Get(hourly, keys[j]), idx)
               && forall i :: 0 <= i < j ==> !Supplies(hourly, keys[i], idx);
      assert keys[j] in hourly.fields && keys[j] != "time";
    }
  }

  lemma {:induction false} NumericTemperatureFields(data: JsValue)
    requires !IsNullish(data)
    requires NumericCurrent(Get(data, "current_weather")) && NumericHourly(Get(data, "hourly"))
    ensures var s := BuildSnapshot(data).value;
            s.temperature.Num? && s.apparentTemperature.Num? && s.weatherCode.Num?
  {
    var cw := CurrentSection(data);
    var hourly := HourlySection(data);
    var idx := AlignmentIndex(cw, hourly);
    assert NumericCurrent(cw) && NumericHourly(hourly);
    PickFromNumericSection(hourly, ["temperature_2m"], idx);
    PickFromNumericSection(hourly, ApparentKeys, idx);
  }

  lemma {:induction false} NumericWindFields(data: JsValue)
    requires !IsNullish(data)
    requires NumericCurrent(Get(data, "current_weather")) && NumericHourly(Get(data, "hourly"))
    ensures var s := BuildSnapshot(data).value;
            s.windSpeed.Num? && s.windGusts.Num? && s.windDirection.Num?
  {
    var cw := CurrentSection(data);
    var hourly := HourlySection(data);
    var idx := AlignmentIndex(cw, hourly);
    assert NumericCurrent(cw) && NumericHourly(hourly);
    PickFromNumericSection(hourly, WindSpeedKeys, idx);
    PickFromNumericSection(hourly, WindGustKeys, idx);
    PickFromNumericSection(hourly, WindDirectionKeys, idx);
  }

  lemma {:induction false} NumericHourlyFirstFields(data: JsValue)
    requires !IsNullish(data)
    requires NumericCurrent(Get(data, "current_weather")) && NumericHourly(Get(data, "hourly"))
    ensures var s := BuildSnapshot(data).value;
            && s.relativeHumidity.Num? && s.precipitation.Num? && s.rain.Num?
            && s.showers.Num? && s.snowfall.Num? && s.cloudCover.Num?
  {
    var cw := CurrentSection(data);
    var hourly := HourlySection(data);
    var idx := AlignmentIndex(cw, hourly);
    assert NumericCurrent(cw) && NumericHourly(hourly);
    PickFromNumericSection(hourly, HumidityKeys, idx);
    PickFromNumericSection(hourly, ["precipitation"], idx);
    PickFromNumericSection(hourly, ["rain"], idx);
    PickFromNumericSection(hourly, ["showers"], idx);
    PickFromNumericSection(hourly, ["snowfall"], idx);
    PickFromNumericSection(hourly, CloudKeys, idx);
  }

  /** The snapshot of a well-formed forecast holds a number in every
      numeric field: 0 is the last fallback, so no field is left empty. */
  lemma {:induction false} NumericPayloadGivesNumbers(data: JsValue)
    requires !IsNullish(data)
    requires NumericCurrent(Get(data, "current_weather")) && NumericHourly(Get(data, "hourly"))
    ensures var s := BuildSnapshot(data).value;
            && s.temperature.Num? && s.apparentTemperature.Num? && s.relativeHumidity.Num?
            && s.precipitation.Num? && s.rain.Num? && s.showers.Num? && s.snowfall.Num?
            && s.cloudCover.Num? && s.windSpeed.Num? && s.windGusts.Num? && s.windDirection.Num?
            && s.weatherCode.Num?
  {
    NumericTemperatureFields(data);
    NumericWindFields(data);
    NumericHourlyFirstFields(data);
  }

  /** The payload of the worked example below: the current reading has
      temperature 15 and weather code 61; the hourly series has one hour,
      matching it, with cloud cover 80. */
  function ExamplePayload(): JsValue {
    Obj(map["current_weather" := Obj(map["time" := Str("2024-01-01T12:00"),
                                         "temperature" := Num(Finite(15.0)),
                                         "weathercode" := Num(Finite(61.0))]),
            "hourly" := Obj(map["time" := Arr([Str("2024-01-01T12:00")]),
                                "cloudcover" := Arr([Num(Finite(80.0))])])])
  }

  lemma ExampleSections()
    ensures AlignmentIndex(CurrentSection(ExamplePayload()), HourlySection(ExamplePayload())) == 0
    ensures Get(CurrentSection(ExamplePayload()), "temperature") == Num(Finite(15.0))
    ensures Get(CurrentSection(ExamplePayload()), "apparent_temperature") == Undefined
    ensures Get(CurrentSection(ExamplePayload()), "weathercode") == Num(Finite(61.0))
    ensures Get(CurrentSection(ExamplePayload()), "time") == Str("2024-01-01T12:00")
  {
  }

  lemma {:induction false} ExampleCurrentFields()
    ensures var s := BuildSnapshot(ExamplePayload()).value;
            && s.time == Str("2024-01-01T12:00")
            && s.temperature == Num(Finite(15.0))
            && s.weatherCode == Num(Finite(61.0))
  {
    ExampleSections();
    CurrentReadingWins(ExamplePayload());
  }

  lemma {:induction false} ExampleHourlyFields()
    ensures var s := BuildSnapshot(ExamplePayload()).value;
            && s.cloudCover == Num(Finite(80.0))
            && s.apparentTemperature == Num(Finite(15.0))
            && s.relativeHumidity == Zero
  {
    ExampleSections();
    var hourly := HourlySection(ExamplePayload());
    assert Supplies(hourly, CloudKeys[0], 0);
    assert PickHourlyValue(hourly, CloudKeys, 0) == Num(Finite(80.0));
    assert !Supplies(hourly, ApparentKeys[0], 0) && !Supplies(hourly, ApparentKeys[1], 0);
    assert PickHourlyValue(hourly, ApparentKeys, 0) == Undefined;
    assert !Supplies(hourly, HumidityKeys[0], 0) && !Supplies(hourly, HumidityKeys[1], 0);
    assert PickHourlyValue(hourly, HumidityKeys, 0) == Undefined;
  }

  /** The worked example: the snapshot takes 15, 61 and 80 from the payload,
      the missing apparent temperature degrades to 15 and the missing
      humidity to 0. */
  lemma {:induction false} WorkedExample()
    ensures var s := BuildSnapshot(ExamplePayload()).value;
            && s.time == Str("2024-01-01T12:00")
            && s.temperature == Num(Finite(15.0))
            && s.weatherCode == Num(Finite(61.0))
            && s.cloudCover == Num(Finite(80.0))
            && s.apparentTemperature == Num(Finite(15.0))
            && s.relativeHumidity == Zero
  {
    ExampleCurrentFields();
    ExampleHourlyFields();
  }
}
