/** The measurement-unit state: the temperature toggle, the wind-speed
    cycle and the labels shown for each unit. Units are the strings the
    client passes to Open-Meteo. */
module Units {

  datatype Units = Units(temp: string, wind: string)

  const InitialUnits: Units := Units("celsius", "kmh")

  /** The order the wind button cycles through. */
  const WindCycle: seq<string> := ["kmh", "mph", "ms", "kn"]

  predicate ValidTemp(t: string) {
    t == "celsius" || t == "fahrenheit"
  }

  predicate ValidWind(w: string) {
    w in WindCycle
  }

  predicate Valid(u: Units) {
    ValidTemp(u.temp) && ValidWind(u.wind)
  }

  /** Where a valid wind unit sits in the cycle. */
  function WindPosition(w: string): (i: nat)
    requires ValidWind(w)
    ensures i < |WindCycle| && WindCycle[i] == w
  {
    if w == "kmh" then 0 else if w == "mph" then 1 else if w == "ms" then 2 else 3
  }

  /** The temperature button: celsius becomes fahrenheit, anything else
      becomes celsius. The wind unit is untouched and the temperature unit
      always changes, so every press re-runs the forecast fetch. */
  function ToggleTemp(u: Units): (r: Units)
    ensures r.wind == u.wind
    ensures r.temp != u.temp
    ensures ValidTemp(r.temp)
  {
    u.(temp := if u.temp == "celsius" then "fahrenheit" else "celsius")
  }

  /** The wind button: each unit of the cycle moves to the next one, the
      last wrapping to the first; any value outside the cycle becomes
      "kmh". The temperature unit is untouched and the wind unit always
      changes. */
  function CycleWind(u: Units): (r: Units)
    ensures r.temp == u.temp
    ensures r.wind != u.wind
    ensures ValidWind(r.wind)
    ensures ValidWind(u.wind) ==> r.wind == WindCycle[(WindPosition(u.wind) + 1) % |WindCycle|]
    ensures !ValidWind(u.wind) ==> r.wind == "kmh"
  {
    u.(wind := if u.wind == "kmh" then "mph"
               else if u.wind == "mph" then "ms"
               else if u.wind == "ms" then "kn"
               else "kmh")
  }

  /** The temperature toggle is an involution on the two valid units. */
  lemma {:induction false} ToggleTempInvolution(u: Units)
    requires ValidTemp(u.temp)
    ensures ToggleTemp(ToggleTemp(u)) == u
  {
  }

  /** Four presses of the wind button return to the starting unit, and no
      fewer do. */
  lemma {:induction false} CycleWindPeriodFour(u: Units)
    requires ValidWind(u.wind)
    ensures CycleWind(CycleWind(CycleWind(CycleWind(u)))) == u
    ensures CycleWind(CycleWind(u)) != u && CycleWind(CycleWind(CycleWind(u))) != u
  {
  }

  /** Starting from valid units, both buttons keep the units valid. */
  lemma ButtonsPreserveValidity(u: Units)
    requires Valid(u)
    ensures Valid(ToggleTemp(u)) && Valid(CycleWind(u))
  {
  }

  /** The temperature label: "°C" for celsius, "°F" for anything else. */
  function TempLabel(t: string): (shown: string)
    ensures shown == "\U{00B0}C" <==> t == "celsius"
    ensures shown == "\U{00B0}C" || shown == "\U{00B0}F"
  {
    if t == "celsius" then "\U{00B0}C" else "\U{00B0}F"
  }

  const WindLabels: seq<string> := ["km/h", "mph", "m/s", "kn"]

  /** The wind label: the label in the same position as the unit in the
      cycle; a value outside the cycle is labelled "kn". */
  function WindLabel(w: string): (shown: string)
    ensures shown in WindLabels
    ensures ValidWind(w) ==> shown == WindLabels[WindPosition(w)]
    ensures !ValidWind(w) ==> shown == "kn"
  {
    if w == "kmh" then "km/h" else if w == "mph" then "mph" else if w == "ms" then "m/s" else "kn"
  }

  /** On valid units the labels determine the units: two different valid
      settings never show the same pair of labels, and each press of a
      button changes the label it shows. */
  lemma {:induction false} LabelsIdentifyUnits(u: Units, v: Units)
    requires Valid(u) && Valid(v)
    ensures TempLabel(u.temp) == TempLabel(v.temp) && WindLabel(u.wind) == WindLabel(v.wind) ==> u == v
    ensures TempLabel(ToggleTemp(u).temp) != TempLabel(u.temp)
    ensures WindLabel(CycleWind(u).wind) != WindLabel(u.wind)
  {
  }
}
