# Weather Now — a Dafny model of its data and coordination logic

Weather Now is a single React component (`weather-now/src/App.tsx`) that
searches places with the Open-Meteo geocoding API and shows current weather
from the Open-Meteo forecast API. It can optionally load an in-browser
language model that writes a short outdoor brief. This project models the
sequential logic inside that component without the UI, the network or the
timers:

- **JavaScript values** (`js_values.dfy`, `js_strings.dfy`). Parsed JSON is a
  `JsValue`: `undefined`, `null`, booleans, numbers, strings, arrays, objects.
  Numbers are finite reals, `NaN` or ±Infinity. The file also models the
  operators the component relies on: `??`, `||`, property access, array
  indexing, `===`, `String.prototype.trim` (the full ECMAScript whitespace
  set) and `length` (UTF-16 code units).
- **Wind-direction formatter** (`wind_direction.dfy`). `formatWindDir`
  uses JavaScript's truncating `%` and `Math.round`, written out on reals.
  Its result is judged against an independent definition: the eight
  45-degree sectors, each centred on its compass point.
- **Hourly resolver and alignment index** (`hourly_resolver.dfy`).
  `pickHourlyValue` tries candidate keys in order. The alignment index
  finds the hour that matches `current_weather.time`.
- **Snapshot builder** (`snapshot.dfy`). This is the body of `fetchWeather`
  that turns the parsed forecast into the `CurrentWeather` record, using
  one `??` fallback chain per field.
- **Units** (`units.dfy`). The temperature toggle, the wind-unit cycle and
  their labels.
- **Place search** (`place_search.dfy`). It covers:
  - the two-character gate on the trimmed query;
  - the debounced lookup, where a pending search fires when the quiet
    period ends;
  - the request counter, so that only the latest request's response is
    shown;
  - the mapping of geocoding results to places;
  - Enter picking the first suggestion, and a click on a suggestion
    putting its label in the box.

  Events (`Typed`, `TimerFired`, `Responded`, `KeyDown`) drive a session
  state. `Run` and `Issued` fold a whole event sequence. The search effect
  depends on the query alone, so an edit that leaves the text unchanged
  does nothing.
- **Advisor** (`advisor.dfy`). The `idle/loading/ready/failed` status of
  the language model and the re-entrancy guard of `initLLM`. It also covers
  the text that `generateAdvice` keeps from a reply.
- **Forecast fetch** (`weather_fetch.dfy`). The fetch effect runs when the
  selection or the units change. It clears the advice and, on completion,
  replaces the snapshot and requests advice.

Network outcomes, the random fallback id of a geocoding result, the
engine's creation and the chat reply are all parameters. A lookup outcome
is `LookupFailed` or `LookupReturned(json)`, and a fetch outcome is
`FetchFailed` or `Fetched(data)`. Where the source throws a `TypeError`,
the model returns `None`; the source's `catch` then leaves the state as
it was. Examples are property access on a `null` payload, a truthy
non-array `results`, or a `null` result entry.

Two behaviours of the code are worth stating on their own, and the model
states them as they are:

- The forecast fetch has no latest-request-wins guard: `setCurrent`
  (App.tsx line 243) runs for every completed fetch. An older fetch that
  finishes after a newer one therefore overwrites the newer snapshot, even
  in the old units. `WeatherFetch.OlderFetchOverwritesNewer` states this.
  The geocoding search, by contrast, does discard superseded responses
  (line 170).
- Clearing the query, or shortening it below two characters, clears the
  suggestions (lines 150-153) but does not advance `searchReqId`. A lookup
  already in flight is therefore still the latest request, and when its
  response arrives its places are shown under an empty query.
  `PlaceSearch.ClearedQueryStillShowsLateResults` states this.

## Model

| member | source | states |
|---|---|---|
| WindDirection.FormatWindDir | weather-now/src/App.tsx:78-82 | Returns the em-dash placeholder exactly when the input is not a finite number. Otherwise the result is one of the eight labels: the one whose 45-degree sector contains the bearing (corrected for infinities, see Findings). |
| WindDirection.SectorIndexIsNearest | weather-now/src/App.tsx:81 | For every real bearing, including negative ones and ones of 360 or more, `Math.round(((deg % 360) + 360) / 45) % 8` lies in 0..7. It names the compass point whose half-open sector centred on 45·i holds the bearing, modulo whole turns. |
| WindDirection.SectorsPartitionCircle | weather-now/src/App.tsx:80-81 | The eight sectors are disjoint: a bearing lies in at most one of them (and, by `SectorIndexIsNearest`, in some one). |
| WindDirection.FullTurnKeepsLabel | weather-now/src/App.tsx:81 | Adding or subtracting 360 degrees never changes the label. |
| WindDirection.CompassExamples | weather-now/src/App.tsx:313 | 0 and 360 give "N" (the built-in self-test), 90 gives "E", the boundaries 22.5 and 337.5 round clockwise, and -45 gives "NW". |
| WindDirection.FormatWindDirAsWritten | weather-now/src/App.tsx:78-82 | The function as written returns the placeholder exactly for a non-number or `NaN`, and `undefined` exactly for ±Infinity. Every finite bearing gets one of the eight labels. |
| WindDirection.InfiniteBearingHasNoLabel | weather-now/src/App.tsx:79-81 | As written, ±Infinity passes the guard and the lookup yields `undefined` rather than a label or the placeholder. |
| WindDirection.AsWrittenAgreesOnFiniteInput | weather-now/src/App.tsx:78-82 | The corrected formatter returns what the source returns on every input except the two infinities. |
| HourlyResolver.PickHourlyValue | weather-now/src/App.tsx:85-90 | Absent (`undefined`) for a negative index, a falsy `hourly` or an empty key list. |
| HourlyResolver.PickFindsFirstSupplier | weather-now/src/App.tsx:85-90 | The result is present exactly when some key's value is an array with a defined element at the index. It is then that element of the first such key in list order; a `null` element counts as present. |
| HourlyResolver.IndexOf | weather-now/src/App.tsx:223 | `indexOf` is the first position strictly equal to the value, and -1 exactly when no position is. |
| HourlyResolver.AlignmentIndex | weather-now/src/App.tsx:221-224 | The index is -1 exactly when `hourly.time` is not a non-empty array. Otherwise it is the first position of a truthy `cw.time` listed there, and the last position when that time is not listed. |
| WeatherSnapshot.DirectIndexIsPick | weather-now/src/App.tsx:228 | Indexing `hourly.temperature_2m` directly behaves like `pickHourlyValue` with that single key. |
| WeatherSnapshot.BuildSnapshot | weather-now/src/App.tsx:216-241 | The build fails (the source throws) exactly for a `null` or `undefined` payload. Otherwise every field is populated, and `time` is `cw.time` when truthy, else "". |
| WeatherSnapshot.FallbackChains | weather-now/src/App.tsx:226-241 | Each of the twelve numeric fields equals the first non-nullish candidate of its chain, in the source's order, or 0 when all are nullish. |
| WeatherSnapshot.CurrentReadingWins | weather-now/src/App.tsx:228-240 | A non-null current temperature, wind speed, gust or direction is copied unchanged, whatever the hourly data says. The weather code is `weathercode`, then `weather_code`, then 0. |
| WeatherSnapshot.CloudCoverAndFeelsLike | weather-now/src/App.tsx:229-236 | Cloud cover prefers the hourly keys over `cw.cloudcover`. Apparent temperature prefers the current reading, then the hourly keys, then the plain current temperature. |
| WeatherSnapshot.NoAlignedHourMeansFallbacks | weather-now/src/App.tsx:222-241 | With alignment index -1, humidity, precipitation, rain, showers and snowfall are 0. Every other field is its current-section value or 0. |
| WeatherSnapshot.EmptyPayloadGivesDefaults | weather-now/src/App.tsx:218-241 | A payload with neither section gives the all-default snapshot: time "" and every number 0. |
| WeatherSnapshot.NumericPayloadGivesNumbers | weather-now/src/App.tsx:226-241 | When the payload's readings are all numbers or null, every numeric field of the snapshot is a number. |
| WeatherSnapshot.WorkedExample | weather-now/src/App.tsx:218-241 | A concrete payload resolves as expected: temperature 15, code 61, cloud cover 80 from the matching hour, feels-like 15, humidity 0. |
| Units.ToggleTemp | weather-now/src/App.tsx:331 | The temperature unit always changes and ends valid. The wind unit is unchanged. |
| Units.CycleWind | weather-now/src/App.tsx:342 | Each wind unit moves to the next in kmh → mph → ms → kn → kmh, and any other value becomes kmh. The temperature unit is unchanged. |
| Units.ToggleTempInvolution | weather-now/src/App.tsx:331 | Toggling twice restores a valid temperature unit. |
| Units.CycleWindPeriodFour | weather-now/src/App.tsx:342 | Four presses return to a valid wind unit, and two or three do not. |
| Units.ButtonsPreserveValidity | weather-now/src/App.tsx:331-342 | Starting from valid units, both buttons keep them valid. |
| Units.TempLabel | weather-now/src/App.tsx:260 | "°C" exactly for celsius, "°F" otherwise. |
| Units.WindLabel | weather-now/src/App.tsx:261 | A valid unit gets the label at its own position in the cycle, and any other value is labelled "kn". |
| Units.LabelsIdentifyUnits | weather-now/src/App.tsx:258-264 | On valid units the two labels determine the units, and every press changes the label shown. |
| JsStrings.Trim | weather-now/src/App.tsx:150 | `trim()` leaves no whitespace at either end, never lengthens the text, and is empty exactly for all-whitespace text. |
| JsStrings.TrimIsSlice | weather-now/src/App.tsx:155 | The trimmed query is a contiguous slice of the query, with only whitespace cut on either side. |
| JsStrings.TrimIdempotent | weather-now/src/App.tsx:155 | Trimming twice is trimming once. |
| JsStrings.JsLength | weather-now/src/App.tsx:150 | `length` counts UTF-16 code units: between one and two per character, and 0 exactly for "". |
| PlaceSearch.ToPlace | weather-now/src/App.tsx:172-179 | Each field is copied from the result. The id is the result's own unless it is nullish, in which case the placeholder is used. |
| PlaceSearch.ParseResults | weather-now/src/App.tsx:172-179 | The result fails for a nullish body, a truthy non-array `results` or a null entry. It is empty for a falsy `results`. Otherwise it is one place per result, in response order. |
| PlaceSearch.OnQueryChange | weather-now/src/App.tsx:145-156 | A query below the gate clears the suggestions and leaves nothing pending. Any other query leaves exactly its trimmed text pending, replacing an earlier pending search. |
| PlaceSearch.OnTimerFired | weather-now/src/App.tsx:156-159 | The pending search is issued with id one above the latest and the indicator on. Nothing happens when nothing is pending. |
| PlaceSearch.OnResponse | weather-now/src/App.tsx:166-185 | The suggestions change only for the latest request with a well-formed body, and then become its places. The indicator is off afterwards in every case. |
| PlaceSearch.StaleOrFailedKeepsPlaces | weather-now/src/App.tsx:170-182 | A superseded or failed lookup never changes the suggestions. |
| PlaceSearch.OnKeyDown | weather-now/src/App.tsx:370-377 | Enter selects `places[0]` and hides the list exactly when the trimmed query is non-empty and there is a suggestion. Every other key press changes nothing. |
| PlaceSearch.Step | weather-now/src/App.tsx:145-192 | The latest id never decreases. An issued request carries the new latest id, one above the old one. An edit issues nothing and leaves its text in the box. |
| PlaceSearch.UnchangedQueryChangesNothing | weather-now/src/App.tsx:192 | Edits that leave the text as it was change no state and issue nothing, since the effect depends only on `query`. |
| PlaceSearch.Run | weather-now/src/App.tsx:145-192 | Over any sequence of events the latest id never decreases. |
| PlaceSearch.IssuedIdsIncrease | weather-now/src/App.tsx:159 | Request ids issued over any sequence of events strictly increase. They all exceed the ids issued before and none exceeds the final latest id. |
| PlaceSearch.IssuedIdsConsecutive | weather-now/src/App.tsx:159 | The i-th lookup issued carries the old latest id plus i + 1, and the latest id grows by the number of lookups issued. |
| PlaceSearch.IdsFromStartCountFromOne | weather-now/src/App.tsx:113 | With the counter starting at 0, the lookups are numbered 1, 2, 3, ... and the counter ends at their number. |
| PlaceSearch.TypingBurstLeavesOnePending | weather-now/src/App.tsx:145-192 | A burst of keystrokes issues nothing, keeps the latest id and leaves the last query in the box. If it changed the text, only the last query's trimmed text is pending, and only if that query passes the gate; if not, what was pending stays. |
| PlaceSearch.DebounceIssuesOneLookup | weather-now/src/App.tsx:145-192 | A burst that changed the text, followed by the quiet period, issues exactly one lookup, for the trimmed last query, with a fresh id, or none when the last query is below the gate. A burst that never changed it issues what was pending. |
| PlaceSearch.QuietPeriodIssuesPending | weather-now/src/App.tsx:156-159 | After events that issued nothing, the end of the quiet period issues exactly the pending search. |
| PlaceSearch.LateScenarioIssuesBoth | weather-now/src/App.tsx:155-159 | Two different searchable queries typed with a quiet period after each are looked up in order with consecutive ids. |
| PlaceSearch.LateResponseIsDropped | weather-now/src/App.tsx:169-180 | When the second lookup's response arrives first, the late response to the first lookup is dropped. The suggestions stay those of the second query. |
| PlaceSearch.ClearedQueryStillShowsLateResults | weather-now/src/App.tsx:150-180 | A lookup issued before the box is cleared still counts as the latest request. Its response fills the suggestions under an empty query. |
| PlaceSearch.LondonScenario | weather-now/src/App.tsx:150-180 | The same scenario with "Lon" then "London". |
| PlaceSearch.StringLabels | weather-now/src/App.tsx:406 | For a string name, the label is "name, region" for a non-empty string region and the name alone for an empty or missing one. |
| PlaceSearch.OnSuggestionClick | weather-now/src/App.tsx:403-407 | A click hides the list and puts the label in the box. A changed text is gated and scheduled like any edit; an unchanged one keeps what was pending. |
| PlaceSearch.ClickLooksUpLabel | weather-now/src/App.tsx:145-159 | After a click that changes the text to a searchable label, the quiet period ends with a lookup for the trimmed label under a fresh id. |
| Advisor.BeginInit | weather-now/src/App.tsx:117-120 | Nothing happens while loading or ready. Otherwise the status becomes loading with the error cleared. |
| Advisor.EndInit | weather-now/src/App.tsx:122-141 | An attempt ends ready with an engine stored, or failed with the message recorded. A module without `CreateMLCEngine` records the source's fixed message. |
| Advisor.InitLlm | weather-now/src/App.tsx:117-142 | The call is a no-op while loading or ready. From idle or failed it ends ready exactly when an engine was created, with an error exactly otherwise. The status invariant is kept. |
| Advisor.ReadyIsFinal | weather-now/src/App.tsx:118 | Once ready, no sequence of `initLLM` calls changes the state. |
| Advisor.InitManyKeepsConsistency | weather-now/src/App.tsx:105-142 | Any sequence of calls keeps "engine stored iff ready, error iff failed". |
| Advisor.EngineIffSomeAttemptSucceeded | weather-now/src/App.tsx:117-142 | After non-overlapping calls the status is ready exactly when it was ready before or some attempt created an engine, and it never rests at loading. |
| Advisor.FromStartReadyIffEngineCreated | weather-now/src/App.tsx:105-142 | From the initial idle state, the invariant holds after any calls and the status is ready exactly when some attempt created an engine. |
| Advisor.AdviceText | weather-now/src/App.tsx:283 | The advice is the trimmed message content when that is a string, and "" otherwise. It is non-empty whenever the content has non-whitespace text. |
| Advisor.GenerateAdvice | weather-now/src/App.tsx:266-291 | Nothing changes without an engine. With one, the advice becomes the reply's text ("" when the call throws) and the thinking indicator is off. |
| Advisor.AdviceIsTrimmed | weather-now/src/App.tsx:283 | The advice shown is already trimmed. |
| Advisor.WellFormedReply | weather-now/src/App.tsx:274-284 | A reply of the documented shape yields its trimmed message content. |
| WeatherFetch.StartFetch | weather-now/src/App.tsx:196-213 | Nothing happens without a selected place. Otherwise the indicator goes on, the advice is cleared, and the forecast is requested for the place in the current units. |
| WeatherFetch.CompleteFetch | weather-now/src/App.tsx:215-251 | A payload that builds a snapshot replaces the shown one. A failure or a null payload keeps it. The indicator goes off, and advice is requested exactly when a snapshot was stored and an engine is ready. |
| WeatherFetch.SelectPlace | weather-now/src/App.tsx:371-375 | Selecting a place starts a fetch for its coordinates in the current units with the advice cleared. The units and the shown snapshot are kept. |
| WeatherFetch.PressTemperature | weather-now/src/App.tsx:331 | With a place selected, the temperature button re-fetches in the other unit and clears the advice, keeping the place and the shown snapshot. Without one, only the unit changes and nothing is requested. |
| WeatherFetch.PressWind | weather-now/src/App.tsx:342 | The same for the wind button and the next wind unit. |
| WeatherFetch.FirstFetchUsesDefaultUnits | weather-now/src/App.tsx:98-101 | On the page as it starts, a unit button changes only the unit, and the first place chosen is fetched in celsius and km/h. |
| WeatherFetch.OlderFetchOverwritesNewer | weather-now/src/App.tsx:243 | When the fetch in the old units finishes after the one in the new units, its snapshot is the one left shown. |
| WeatherFetch.LastCompletionWins | weather-now/src/App.tsx:243 | The shown snapshot is always the one from the fetch that completes last. |
| WeatherFetch.FailedFetchChangesOnlyIndicator | weather-now/src/App.tsx:247-251 | A failed fetch only turns the indicator off. |

## Left out

- The WMO label table (lines 51-76), and the JSX from line 318 with its animation, icons and the `Stat` component: presentation only.
- URL construction and the `fetch`/`res.json()` calls: the parsed body, or the failure, is an input. `StartFetch` returns only the coordinates and the unit parameters of the request.
- Timing of the debounce (the 350 ms `setTimeout`/`clearTimeout`): a pending search fires at a `TimerFired` event. A newer query cancels it by replacing it.
- The random fallback id of a geocoding result and the `Date.now()` id of "My Location": the fallback id is an arbitrary parameter (`placeholder`).
- The geolocation quick-pick (`useMyLocation`): a browser API.
- Clicking a suggestion sets the query to the name, followed by `", " + admin1` only when `admin1` is truthy (`PlaceSearch.SuggestionLabel`). JavaScript's string conversion of a non-string name or region is a parameter (`show`). The selection itself is `WeatherFetch.SelectPlace`; the click is a separate function, not one of the `Step` events.
- The dynamic import of the model library, the prompt text and the chat call: their results are the `InitOutcome` and `ReplyOutcome` inputs.
- Advisor.EndInit: the failure message stands for `e.message` or `String(e)`. JavaScript's string conversion of a thrown value is not modelled.
- React re-render semantics: an effect that sees state from an earlier render, and the possibility of two overlapping `initLLM` calls before the status update lands, are not modelled.
- Floating point: weather readings are only copied, never computed on. Bearings are exact reals, so the rounding of the double-precision `+ 360` and `/ 45` near sector boundaries is not modelled (`deg % 360` is exact on doubles).
- Property access by name on arrays and strings (`length`, indices written as strings) is `undefined` in `JsValues.Get`. The component never reads such names from the payload.

## Findings

| source | as written | input that shows it | evidently intended | confidence | as-written member | corrected member |
|---|---|---|---|---|---|---|
| weather-now/src/App.tsx:79-81 | The guard rejects only non-numbers and `NaN`. For ±Infinity, `deg % 360` is `NaN`, so `dirs[NaN]` is `undefined`. | a forecast whose `winddirection` is `1e999`, which `JSON.parse` reads as Infinity | every value that is not a finite number shows the "—" placeholder | medium, not executed | WindDirection.FormatWindDirAsWritten | WindDirection.FormatWindDir |
