/** The forecast fetch effect: it runs whenever the selected place or the
    units change, clears the advice, and on completion replaces the shown
    snapshot and asks the model for advice when an engine is ready. The
    network call is an outcome supplied from outside; there is no guard
    against an older fetch finishing after a newer one. */
module WeatherFetch {
  import opened JsValues
  import opened Options
  import opened Units
  import opened PlaceSearch
  import opened WeatherSnapshot

  /** The part of the page state the fetch reads and writes. `advice` is
      the page's advice text, which the fetch clears; what the model writes
      into it is `Advisor.GenerateAdvice`. */
  datatype FetchState = FetchState(
    selected: Option<Place>, units: Units, current: Option<Snapshot>, fetching: bool, advice: string)

  /** The page as it starts: no place, celsius and km/h, no snapshot. */
  const InitialFetchState: FetchState := FetchState(None, InitialUnits, None, false, "")

  /** The forecast query: the place's coordinates and the two units. */
  datatype ForecastQuery = ForecastQuery(latitude: JsValue, longitude: JsValue, temperatureUnit: string, windSpeedUnit: string)

  /** How the forecast request ends: the network or body parsing fails, or
      the body parses to `data`. */
  datatype FetchOutcome = FetchFailed | Fetched(data: JsValue)

  /** The synchronous start of `fetchWeather`: without a selected place
      nothing happens and nothing is requested; otherwise the fetching
      indicator goes on, the advice is cleared, and the forecast is requested
      for the place's coordinates in the current units. */
  function StartFetch(st: FetchState): (r: (FetchState, Option<ForecastQuery>))
    ensures st.selected.None? ==> r == (st, None)
    ensures st.selected.Some? ==>
              && r.0 == st.(fetching := true, advice := "")
              && r.1 == Some(ForecastQuery(st.selected.value.latitude, st.selected.value.longitude,
                                           st.units.temp, st.units.wind))
  {
    match st.selected
    case None => (st, None)
    case Some(p) => (st.(fetching := true, advice := ""), Some(ForecastQuery(p.latitude, p.longitude, st.units.temp, st.units.wind)))
  }

  /** The end of `fetchWeather`: a payload that builds a snapshot replaces
      the shown one, whichever request it answers; a failed request or a
      `null` payload leaves it. The indicator goes off either way, and the
      second result says whether advice is requested, which happens exactly
      when a snapshot was stored and an engine is ready. */
  function CompleteFetch(st: FetchState, outcome: FetchOutcome, engineReady: bool): (r: (FetchState, bool))
    ensures !r.0.fetching
    ensures r.0.selected == st.selected && r.0.units == st.units && r.0.advice == st.advice
    ensures r.0.current != st.current ==> outcome.Fetched? && r.0.current == BuildSnapshot(outcome.data)
    ensures outcome.Fetched? && !IsNullish(outcome.data) ==> r.0.current == BuildSnapshot(outcome.data)
    ensures outcome.FetchFailed? || IsNullish(outcome.data) ==> r.0.current == st.current
    ensures r.1 <==> engineReady && outcome.Fetched? && !IsNullish(outcome.data)
  {
    match outcome
    case FetchFailed => (st.(fetching := false), false)
    case Fetched(data) =>
      match BuildSnapshot(data)
      case None => (st.(fetching := false), false)
      case Some(c) => (st.(current := Some(c), fetching := false), engineReady)
  }

  /** Choosing a place (Enter on the first suggestion, or a click) selects
      it, which starts a fetch for it. */
  function SelectPlace(st: FetchState, p: Place): (r: (FetchState, Option<ForecastQuery>))
    ensures r.0 == st.(selected := Some(p), fetching := true, advice := "")
    ensures r.1 == Some(ForecastQuery(p.latitude, p.longitude, st.units.temp, st.units.wind))
  {
    StartFetch(st.(selected := Some(p)))
  }

  /** The temperature button re-runs the fetch in the other temperature
      unit. */
  function PressTemperature(st: FetchState): (r: (FetchState, Option<ForecastQuery>))
    ensures r.0.units == ToggleTemp(st.units)
    ensures st.selected.Some? ==> r.0.advice == "" && r.0.fetching && r.1.Some? && r.1.value.temperatureUnit != st.units.temp
    ensures st.selected.None? ==> r.1.None? && r.0.advice == st.advice
    ensures st.selected.Some? ==> r.0 == st.(units := ToggleTemp(st.units), fetching := true, advice := "")
    ensures st.selected.None? ==> r.0 == st.(units := ToggleTemp(st.units))
  {
    StartFetch(st.(units := ToggleTemp(st.units)))
  }

  /** The wind button re-runs the fetch in the next wind-speed unit. */
  function PressWind(st: FetchState): (r: (FetchState, Option<ForecastQuery>))
    ensures r.0.units == CycleWind(st.units)
    ensures st.selected.Some? ==> r.0.advice == "" && r.0.fetching && r.1.Some? && r.1.value.windSpeedUnit != st.units.wind
    ensures st.selected.None? ==> r.1.None? && r.0.advice == st.advice
    ensures st.selected.Some? ==> r.0 == st.(units := CycleWind(st.units), fetching := true, advice := "")
    ensures st.selected.None? ==> r.0 == st.(units := CycleWind(st.units))
  {
    StartFetch(st.(units := CycleWind(st.units)))
  }

  /** On the page as it starts, a unit button only changes the unit, and
      the first place chosen is fetched in celsius and km/h. */
  lemma FirstFetchUsesDefaultUnits(p: Place)
    ensures PressTemperature(InitialFetchState) == (InitialFetchState.(units := Units("fahrenheit", "kmh")), None)
    ensures PressWind(InitialFetchState) == (InitialFetchState.(units := Units("celsius", "mph")), None)
    ensures SelectPlace(InitialFetchState, p).1 == Some(ForecastQuery(p.latitude, p.longitude, "celsius", "kmh"))
  {
  }

  /** No latest-fetch-wins guard: a place is selected (fetch A, in the old
      units), the temperature unit is switched (fetch B), and B's response
      arrives before A's. The snapshot left on screen is A's, in the old
      units, although B was requested later. */
  lemma OlderFetchOverwritesNewer(st: FetchState, p: Place, older: JsValue, newer: JsValue, engineReady: bool)
    requires !IsNullish(older) && !IsNullish(newer)
    ensures var s1 := SelectPlace(st, p).0;
            var s2 := PressTemperature(s1).0;
            var s3 := CompleteFetch(s2, Fetched(newer), engineReady).0;
            var s4 := CompleteFetch(s3, Fetched(older), engineReady).0;
            && SelectPlace(st, p).1.value.temperatureUnit == st.units.temp
            && PressTemperature(s1).1.value.temperatureUnit != st.units.temp
            && s4.current == BuildSnapshot(older)
            && s4.units == ToggleTemp(st.units)
  {
  }

  /** The two fetch effects differ only in the order of completion, and the
      shown snapshot follows whichever completes last. */
  lemma LastCompletionWins(st: FetchState, a: JsValue, b: JsValue, engineReady: bool)
    requires !IsNullish(a) && !IsNullish(b)
    ensures CompleteFetch(CompleteFetch(st, Fetched(a), engineReady).0, Fetched(b), engineReady).0.current == BuildSnapshot(b)
    ensures CompleteFetch(CompleteFetch(st, Fetched(b), engineReady).0, Fetched(a), engineReady).0.current == BuildSnapshot(a)
  {
  }

  /** A failed fetch leaves the snapshot and the advice as they were and only
      turns the indicator off. */
  lemma FailedFetchChangesOnlyIndicator(st: FetchState, engineReady: bool)
    ensures CompleteFetch(st, FetchFailed, engineReady) == (st.(fetching := false), false)
  {
  }
}
