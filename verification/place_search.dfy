/** The live place search behind the search box: the length gate, the
    debounced lookup with its latest-request-wins sequence number, the
    mapping of geocoding results to places, and the "Enter picks the first
    suggestion" rule. Timing is abstracted away: a pending search is one
    that will fire when the quiet period ends, and `TimerFired` is that
    moment. */
module PlaceSearch {
  import opened JsValues
  import opened JsStrings
  import opened Options

  /** A geocoding result as the client keeps it. Fields are copied from the
      response without checking their types. */
  datatype Place = Place(
    id: JsValue, name: JsValue, country: JsValue, admin1: JsValue,
    latitude: JsValue, longitude: JsValue)

  /** A geocoding lookup issued for the trimmed query `name`, tagged `id`. */
  datatype Request = Request(id: nat, name: string)

  /** What became of a lookup: the network or body parsing failed, or the
      body parsed to `json`. */
  datatype Lookup = LookupFailed | LookupReturned(json: JsValue)

  /** The search state: the text in the box, the suggestions shown, the
      trimmed query of the search waiting for the quiet period (if any), the
      latest request id issued, and the "searching" indicator. */
  datatype Session = Session(
    query: string, places: seq<Place>, pending: Option<string>, latestId: nat, loading: bool)

  const InitialSession: Session := Session("", [], None, 0, false)

  /** One result `r` as a place, `fallbackId` standing for the random
      placeholder the source draws when `r.id` is missing. */
  function ToPlace(r: JsValue, fallbackId: JsValue): (p: Place)
    requires !IsNullish(r)
    ensures !IsNullish(Get(r, "id")) ==> p.id == Get(r, "id")
    ensures IsNullish(Get(r, "id")) ==> p.id == fallbackId
    ensures p.name == Get(r, "name") && p.country == Get(r, "country") && p.admin1 == Get(r, "admin1")
    ensures p.latitude == Get(r, "latitude") && p.longitude == Get(r, "longitude")
  {
    Place(Coalesce(Get(r, "id"), fallbackId), Get(r, "name"), Get(r, "country"), Get(r, "admin1"),
          Get(r, "latitude"), Get(r, "longitude"))
  }

  /** `(json.results || []).map(...)`: the places of a geocoding response,
      in response order, or `None` where the source throws a TypeError
      (`json` is null, `results` is truthy but not an array, or one of its
      entries is null), in which case the shown places stay as they were.
      `placeholder(i)` is the arbitrary id given to the i-th result when it
      has none. */
  function ParseResults(json: JsValue, placeholder: nat -> JsValue): (r: Option<seq<Place>>)
    ensures IsNullish(json) ==> r.None?
    ensures !IsNullish(json) && !Truthy(Get(json, "results")) ==> r == Some([])
    ensures !IsNullish(json) && Truthy(Get(json, "results")) && !Get(json, "results").Arr? ==> r.None?
    ensures !IsNullish(json) && Get(json, "results").Arr? ==>
              var items := Get(json, "results").items;
              && (r.None? <==> exists i :: 0 <= i < |items| && IsNullish(items[i]))
              && (r.Some? ==>
                    && |r.value| == |items|
                    && forall i :: 0 <= i < |items| ==> r.value[i] == ToPlace(items[i], placeholder(i)))
  {
    if IsNullish(json) then None
    else
      var results := Or(Get(json, "results"), Arr([]));
      if !results.Arr? then None
      else if exists i :: 0 <= i < |results.items| && IsNullish(results.items[i]) then None
      else
        var places := seq(|results.items|, i requires 0 <= i < |results.items| =>
                                              ToPlace(results.items[i], placeholder(i)));
        assert results.items == [] ==> places == [];
        Some(places)
  }

  /** The length gate: a query is searched only when its trimmed text is at
      least two UTF-16 code units long. */
  predicate Searchable(q: string) {
    JsLength(Trim(q)) >= 2
  }

  /** The search effect on a change of query: the pending search, if any,
      is cancelled; a query below the gate clears the suggestions and
      schedules nothing; any other query schedules one search for its
      trimmed text and leaves the suggestions in place. */
  function OnQueryChange(s: Session, q: string): (r: Session)
    ensures r.query == q && r.latestId == s.latestId && r.loading == s.loading
    ensures !Searchable(q) ==> r.places == [] && r.pending == None
    ensures Searchable(q) ==> r.places == s.places && r.pending == Some(Trim(q))
  {
    if !Searchable(q) then s.(query := q, places := [], pending := None)
    else s.(query := q, pending := Some(Trim(q)))
  }

  /** The end of the quiet period: a pending search is issued with an id one
      above every id issued before; with nothing pending nothing happens. */
  function OnTimerFired(s: Session): (r: (Session, Option<Request>))
    ensures s.pending.None? ==> r == (s, None)
    ensures s.pending.Some? ==>
              && r.1 == Some(Request(s.latestId + 1, s.pending.value))
              && r.0.latestId > s.latestId && r.0.latestId == r.1.value.id
              && r.0.pending == None && r.0.loading
              && r.0.places == s.places && r.0.query == s.query
  {
    if s.pending.None? then (s, None)
    else
      var id := s.latestId + 1;
      (s.(pending := None, latestId := id, loading := true), Some(Request(id, s.pending.value)))
  }

  /** A lookup completes. Its places are shown only when it is the latest
      request issued and its response maps to places; a failed lookup, a
      superseded one or a malformed response leaves the suggestions as
      they were. The indicator is cleared in every case. */
  function OnResponse(s: Session, id: nat, outcome: Lookup, placeholder: nat -> JsValue): (r: Session)
    ensures !r.loading
    ensures r.query == s.query && r.pending == s.pending && r.latestId == s.latestId
    ensures r.places != s.places ==>
              && id == s.latestId && outcome.LookupReturned?
              && ParseResults(outcome.json, placeholder) == Some(r.places)
    ensures id == s.latestId && outcome.LookupReturned? && ParseResults(outcome.json, placeholder).Some? ==>
              r.places == ParseResults(outcome.json, placeholder).value
  {
    match outcome
    case LookupFailed => s.(loading := false)
    case LookupReturned(json) =>
      if id != s.latestId then s.(loading := false)
      else match ParseResults(json, placeholder)
        case None => s.(loading := false)
        case Some(list) => s.(places := list, loading := false)
  }

  /** A key press in the search box: Enter picks the first suggestion (and
      hides the list) when the trimmed query is non-empty and there is a
      suggestion; every other press changes nothing. */
  function OnKeyDown(s: Session, key: string): (r: (Session, Option<Place>))
    ensures r.1.Some? <==> key == "Enter" && !AllWhitespace(s.query) && |s.places| > 0
    ensures r.1.Some? ==> r.1.value == s.places[0] && r.0 == s.(places := [])
    ensures r.1.None? ==> r.0 == s
  {
    if key == "Enter" && Trim(s.query) != "" && |s.places| > 0 then (s.(places := []), Some(s.places[0]))
    else (s, None)
  }

  /** The user-visible events of the search box. `Typed(q)` is an edit
      that leaves `q` in the box; the search effect depends on the query
      alone, so an edit that leaves the text as it was does not re-run it. */
  datatype Event = Typed(q: string) | TimerFired | Responded(id: nat, outcome: Lookup) | KeyDown(key: string)

  /** One event: the next state and the lookup it issues, if any. */
  function Step(s: Session, e: Event, placeholder: nat -> JsValue): (r: (Session, Option<Request>))
    ensures r.0.latestId >= s.latestId
    ensures r.1.Some? ==> r.1.value.id == r.0.latestId == s.latestId + 1
    ensures r.1.None? ==> r.0.latestId == s.latestId
    ensures e.Typed? ==> r.1.None? && r.0.query == e.q
  {
    match e
    case Typed(q) => if q == s.query then (s, None) else (OnQueryChange(s, q), None)
    case TimerFired => OnTimerFired(s)
    case Responded(id, outcome) => (OnResponse(s, id, outcome, placeholder), None)
    case KeyDown(key) => (OnKeyDown(s, key).0, None)
  }

  /** The state after a sequence of events. */
  function Run(s: Session, events: seq<Event>, placeholder: nat -> JsValue): (r: Session)
    ensures r.latestId >= s.latestId
    decreases |events|
  {
    if events == [] then s else Run(Step(s, events[0], placeholder).0, events[1..], placeholder)
  }

  /** The lookups issued during a sequence of events, in order. */
  function Issued(s: Session, events: seq<Event>, placeholder: nat -> JsValue): seq<Request>
    decreases |events|
  {
    if events == [] then []
    else
      var step := Step(s, events[0], placeholder);
      var rest := Issued(step.0, events[1..], placeholder);
      if step.1.Some? then [step.1.value] + rest else rest
  }

  /** Request ids are fresh: the lookups issued during a sequence of events
      carry strictly increasing ids, all above every id issued before the
      sequence and none above the latest id afterwards. */
  lemma {:induction false} IssuedIdsIncrease(s: Session, events: seq<Event>, placeholder: nat -> JsValue)
    ensures forall i :: 0 <= i < |Issued(s, events, placeholder)| ==>
              s.latestId < Issued(s, events, placeholder)[i].id <= Run(s, events, placeholder).latestId
    ensures forall i, j :: 0 <= i < j < |Issued(s, events, placeholder)| ==>
              Issued(s, events, placeholder)[i].id < Issued(s, events, placeholder)[j].id
    decreases |events|
  {
    if events != [] {
      var step := Step(s, events[0], placeholder);
      var next := step.0;
      IssuedIdsIncrease(next, events[1..], placeholder);
      var rest := Issued(next, events[1..], placeholder);
      if step.1.Some? {
        var reqs := [step.1.value] + rest;
        assert Issued(s, events, placeholder) == reqs;
        assert forall i :: 1 <= i < |reqs| ==> reqs[i] == rest[i - 1];
      } else {
        assert Issued(s, events, placeholder) == rest;
      }
    }
  }

  /** Request ids are consecutive: the i-th lookup issued during a sequence
      of events carries the id i places above the latest id before it, and
      the latest id afterwards has moved by the number of lookups issued. */
  lemma {:induction false} IssuedIdsConsecutive(s: Session, events: seq<Event>, placeholder: nat -> JsValue)
    ensures Run(s, events, placeholder).latestId == s.latestId + |Issued(s, events, placeholder)|
    ensures forall i :: 0 <= i < |Issued(s, events, placeholder)| ==>
              Issued(s, events, placeholder)[i].id == s.latestId + 1 + i
    decreases |events|
  {
    if events != [] {
      var step := Step(s, events[0], placeholder);
      IssuedIdsConsecutive(step.0, events[1..], placeholder);
      var rest := Issued(step.0, events[1..], placeholder);
      if step.1.Some? {
        var reqs := [step.1.value] + rest;
        assert Issued(s, events, placeholder) == reqs;
        assert forall i :: 1 <= i < |reqs| ==> reqs[i] == rest[i - 1];
      } else {
        assert Issued(s, events, placeholder) == rest;
      }
    }
  }

  /** From the state the page starts in, the lookups are numbered 1, 2, 3, ... */
  lemma IdsFromStartCountFromOne(events: seq<Event>, placeholder: nat -> JsValue)
    ensures forall i :: 0 <= i < |Issued(InitialSession, events, placeholder)| ==>
              Issued(InitialSession, events, placeholder)[i].id == i + 1
    ensures Run(InitialSession, events, placeholder).latestId == |Issued(InitialSession, events, placeholder)|
  {
    IssuedIdsConsecutive(InitialSession, events, placeholder);
  }

  /** JavaScript's `+` on a string operand: a string is used as it is, any
      other value through `show`, which stands for its string conversion. */
  function AsText(v: JsValue, show: JsValue -> string): string {
    if v.Str? then v.s else show(v)
  }

  /** The text a click on a suggestion puts in the box: the name, then
      ", " and the region when the region is truthy. */
  function SuggestionLabel(p: Place, show: JsValue -> string): string {
    AsText(p.name, show) + (if Truthy(p.admin1) then ", " + AsText(p.admin1, show) else "")
  }

  /** For a place whose name and region are strings, the label is the name
      alone when the region is empty or missing, and "name, region"
      otherwise. */
  lemma StringLabels(n: string, a: string, p: Place, show: JsValue -> string)
    requires p.name == Str(n)
    ensures p.admin1 == Str(a) && a != "" ==> SuggestionLabel(p, show) == n + ", " + a
    ensures p.admin1 == Str("") || IsNullish(p.admin1) ==> SuggestionLabel(p, show) == n
  {
  }

  /** A click on a suggestion hides the list and puts the suggestion's
      label in the box. When that changes the text, the search effect runs
      for the label as for any edit; the selection itself is the
      forecast's concern. */
  function OnSuggestionClick(s: Session, p: Place, show: JsValue -> string): (r: Session)
    ensures r.query == SuggestionLabel(p, show) && r.places == []
    ensures r.latestId == s.latestId && r.loading == s.loading
    ensures r.query != s.query ==> r.pending == PendingFor(r.query)
    ensures r.query == s.query ==> r.pending == s.pending
  {
    var text := SuggestionLabel(p, show);
    var hidden := s.(places := []);
    if text == s.query then hidden else OnQueryChange(hidden, text)
  }

  /** After a click that changes the text to a label passing the gate, the
      end of the quiet period looks up the label itself. */
  lemma ClickLooksUpLabel(s: Session, p: Place, show: JsValue -> string)
    requires SuggestionLabel(p, show) != s.query && Searchable(SuggestionLabel(p, show))
    ensures OnTimerFired(OnSuggestionClick(s, p, show)).1 ==
              Some(Request(s.latestId + 1, Trim(SuggestionLabel(p, show))))
  {
  }

  /** A burst of keystrokes: every event is an edit of the query. */
  predicate Typing(events: seq<Event>) {
    forall i :: 0 <= i < |events| ==> events[i].Typed?
  }

  /** Every event leaves the text `q` in the box. */
  predicate Repeats(events: seq<Event>, q: string) {
    forall i :: 0 <= i < |events| ==> events[i] == Typed(q)
  }

  /** The search a query leaves pending: its trimmed text when it passes
      the gate, nothing otherwise. */
  function PendingFor(q: string): Option<string> {
    if Searchable(q) then Some(Trim(q)) else None
  }

  /** Edits that keep the text in the box as it was change nothing: no
      search is cancelled, scheduled or issued, and the suggestions stay. */
  lemma {:induction false} UnchangedQueryChangesNothing(s: Session, events: seq<Event>, placeholder: nat -> JsValue)
    requires Repeats(events, s.query)
    ensures Run(s, events, placeholder) == s
    ensures Issued(s, events, placeholder) == []
    decreases |events|
  {
    if events != [] {
      assert events[0] == Typed(s.query);
      assert Step(s, events[0], placeholder) == (s, None);
      assert Repeats(events[1..], s.query) by {
        forall i | 0 <= i < |events[1..]| ensures events[1..][i] == Typed(s.query) {
          assert events[1..][i] == events[i + 1];
        }
      }
      UnchangedQueryChangesNothing(s, events[1..], placeholder);
    }
  }

  /** A burst of typing issues no lookup, keeps the latest id, and leaves
      the last query in the box. If some edit changed the text, the one
      search left pending is the last query's trimmed text, and only when
      that query passes the gate; otherwise whatever was pending stays. */
  lemma {:induction false} TypingBurstLeavesOnePending(
    s: Session, events: seq<Event>, last: string, placeholder: nat -> JsValue)
    requires |events| > 0 && Typing(events) && events[|events| - 1] == Typed(last)
    ensures Run(s, events, placeholder).pending ==
              (if Repeats(events, s.query) then s.pending else PendingFor(last))
    ensures Run(s, events, placeholder).query == last
    ensures Run(s, events, placeholder).latestId == s.latestId
    ensures Issued(s, events, placeholder) == []
    decreases |events|
  {
    var q := events[0].q;
    var next := Step(s, events[0], placeholder).0;
    assert Step(s, events[0], placeholder).1 == None;
    if |events| == 1 {
      assert events[1..] == [];
    } else {
      var rest := events[1..];
      assert Typing(rest) by {
        forall i | 0 <= i < |rest| ensures rest[i].Typed? {
          assert rest[i] == events[i + 1];
        }
      }
      assert rest[|rest| - 1] == Typed(last);
      TypingBurstLeavesOnePending(next, rest, last, placeholder);
      if q == s.query {
        assert next == s;
        assert Repeats(events, s.query) <==> Repeats(rest, s.query) by {
          if Repeats(rest, s.query) {
            forall i | 0 <= i < |events| ensures events[i] == Typed(s.query) {
              if i > 0 { assert events[i] == rest[i - 1]; }
            }
          }
          if Repeats(events, s.query) {
            forall i | 0 <= i < |rest| ensures rest[i] == Typed(s.query) {
              assert rest[i] == events[i + 1];
            }
          }
        }
      } else {
        assert !Repeats(events, s.query) by {
          assert events[0] != Typed(s.query);
        }
        assert next.query == q && next.pending == PendingFor(q);
        if Repeats(rest, q) {
          assert rest[|rest| - 1] == Typed(q);
        }
      }
    }
  }

  /** Debounce: however many keystrokes arrive before the quiet period ends,
      exactly one lookup is issued when it ends (none if the last query is
      below the gate), for the trimmed last query, tagged with a new id.
      A burst that never changed the text issues whatever was pending. */
  lemma {:induction false} DebounceIssuesOneLookup(
    s: Session, events: seq<Event>, last: string, placeholder: nat -> JsValue)
    requires |events| > 0 && Typing(events) && events[|events| - 1] == Typed(last)
    ensures !Repeats(events, s.query) && Searchable(last) ==>
              Issued(s, events + [TimerFired], placeholder) == [Request(s.latestId + 1, Trim(last))]
    ensures !Repeats(events, s.query) && !Searchable(last) ==>
              Issued(s, events + [TimerFired], placeholder) == []
    ensures Repeats(events, s.query) ==>
              Issued(s, events + [TimerFired], placeholder) ==
                if s.pending.Some? then [Request(s.latestId + 1, s.pending.value)] else []
  {
    TypingBurstLeavesOnePending(s, events, last, placeholder);
    QuietPeriodIssuesPending(s, events, placeholder);
    var mid := Run(s, events, placeholder);
    var reqs := Issued(s, events + [TimerFired], placeholder);
    if Repeats(events, s.query) {
      assert mid.pending == s.pending;
    } else if Searchable(last) {
      assert mid.pending == Some(Trim(last));
      assert reqs == [Request(mid.latestId + 1, Trim(last))];
    } else {
      assert mid.pending == None;
    }
  }

  /** After a sequence of events that issued nothing, the end of the quiet
      period issues exactly the search left pending. */
  lemma QuietPeriodIssuesPending(s: Session, events: seq<Event>, placeholder: nat -> JsValue)
    requires Issued(s, events, placeholder) == []
    ensures Issued(s, events + [TimerFired], placeholder) ==
              if Run(s, events, placeholder).pending.Some?
              then [Request(Run(s, events, placeholder).latestId + 1, Run(s, events, placeholder).pending.value)]
              else []
  {
    IssuedAppend(s, events, [TimerFired], placeholder);
    var mid := Run(s, events, placeholder);
    TimerIssuesPending(mid, placeholder);
    var tail := Issued(mid, [TimerFired], placeholder);
    assert Issued(s, events + [TimerFired], placeholder) == [] + tail;
    assert [] + tail == tail;
  }

  /** The end of the quiet period issues exactly the pending search. */
  lemma TimerIssuesPending(s: Session, placeholder: nat -> JsValue)
    ensures Issued(s, [TimerFired], placeholder) ==
              if s.pending.Some? then [Request(s.latestId + 1, s.pending.value)] else []
  {
    assert [TimerFired][1..] == [];
  }

  lemma {:induction false} IssuedAppend(s: Session, a: seq<Event>, b: seq<Event>, placeholder: nat -> JsValue)
    ensures Issued(s, a + b, placeholder) == Issued(s, a, placeholder) + Issued(Run(s, a, placeholder), b, placeholder)
    decreases |a|
  {
    if a != [] {
      assert (a + b)[0] == a[0];
      assert (a + b)[1..] == a[1..] + b by {
        forall k | 0 <= k < |a| - 1 + |b| ensures (a + b)[1..][k] == (a[1..] + b)[k] {
          if k < |a| - 1 { assert (a + b)[1..][k] == a[k + 1]; }
        }
      }
      IssuedAppend(Step(s, a[0], placeholder).0, a[1..], b, placeholder);
    } else {
      assert a + b == b;
    }
  }

  lemma LonIsSearchable()
    ensures Trim("Lon") == "Lon" && Searchable("Lon")
  {
    assert !IsJsWhitespace("Lon"[0]) && !IsJsWhitespace("Lon"[2]);
    TrimmedTextTrimsToItself("Lon");
    assert JsLength("Lon") == 3;
  }

  lemma LondonIsSearchable()
    ensures Trim("London") == "London" && Searchable("London")
  {
    assert !IsJsWhitespace("London"[0]) && !IsJsWhitespace("London"[5]);
    TrimmedTextTrimsToItself("London");
    assert JsLength("London") == 6;
  }

  /** The superseded-request scenario, starting from a session whose
      latest id is `id`: the user changes the query to `first` and its
      lookup is issued, then to `second` and its lookup is issued; the response to the second
      lookup arrives before the response to the first. */
  function LateScenario(id: nat, first: string, second: string, early: JsValue, late: JsValue): seq<Event> {
    [Typed(first), TimerFired, Typed(second), TimerFired,
     Responded(id + 2, LookupReturned(early)), Responded(id + 1, LookupReturned(late))]
  }

  /** Changing the query to one that passes the gate and waiting out the
      quiet period issues exactly one lookup, for the trimmed query. */
  lemma {:induction false} TypeThenWaitIssues(s: Session, q: string, rest: seq<Event>, placeholder: nat -> JsValue)
    requires Searchable(q) && q != s.query
    ensures Issued(s, [Typed(q), TimerFired] + rest, placeholder) ==
              [Request(s.latestId + 1, Trim(q))] + Issued(OnTimerFired(OnQueryChange(s, q)).0, rest, placeholder)
  {
    var events := [Typed(q), TimerFired] + rest;
    var s1 := OnQueryChange(s, q);
    assert events[0] == Typed(q) && events[1..][0] == TimerFired;
    assert events[1..][1..] == rest;
    assert Issued(s, events, placeholder) == Issued(s1, events[1..], placeholder);
  }

  /** Responses issue no lookups. */
  lemma {:induction false} ResponsesIssueNothing(s: Session, a: Event, b: Event, placeholder: nat -> JsValue)
    requires a.Responded? && b.Responded?
    ensures Issued(s, [a, b], placeholder) == []
  {
    var t := Step(s, a, placeholder).0;
    assert Issued(t, [b], placeholder) == [] by {
      assert [b][0] == b && [b][1..] == [];
      assert Step(t, b, placeholder).1 == None;
    }
    assert [a, b][0] == a && [a, b][1..] == [b];
    assert Step(s, a, placeholder).1 == None;
  }

  /** In the scenario both queries are looked up, in order, with
      consecutive new ids. */
  lemma {:induction false} LateScenarioIssuesBoth(
    s: Session, first: string, second: string, early: JsValue, late: JsValue, placeholder: nat -> JsValue)
    requires Searchable(first) && Searchable(second) && s.query != first && first != second
    ensures Issued(s, LateScenario(s.latestId, first, second, early, late), placeholder) ==
              [Request(s.latestId + 1, Trim(first)), Request(s.latestId + 2, Trim(second))]
  {
    var a := Responded(s.latestId + 2, LookupReturned(early));
    var b := Responded(s.latestId + 1, LookupReturned(late));
    var tail := [Typed(second), TimerFired] + [a, b];
    assert LateScenario(s.latestId, first, second, early, late) == [Typed(first), TimerFired] + tail;
    TypeThenWaitIssues(s, first, tail, placeholder);
    var s2 := OnTimerFired(OnQueryChange(s, first)).0;
    TypeThenWaitIssues(s2, second, [a, b], placeholder);
    ResponsesIssueNothing(OnTimerFired(OnQueryChange(s2, second)).0, a, b, placeholder);
    var r1 := Request(s.latestId + 1, Trim(first));
    var r2 := Request(s2.latestId + 1, Trim(second));
    assert s2.latestId == s.latestId + 1;
    assert [r1] + ([r2] + []) == [r1, r2];
  }

  /** Superseded-request discard: in the scenario the late response to the
      first lookup is dropped, so the suggestions are those of the second
      query, whatever the late response contains. */
  lemma {:induction false} LateResponseIsDropped(
    s: Session, first: string, second: string, early: JsValue, late: JsValue,
    places: seq<Place>, placeholder: nat -> JsValue)
    requires Searchable(first) && Searchable(second) && s.query != first && first != second
    requires ParseResults(early, placeholder) == Some(places)
    ensures Run(s, LateScenario(s.latestId, first, second, early, late), placeholder).places == places
  {
    var events := LateScenario(s.latestId, first, second, early, late);
    var s1 := OnQueryChange(s, first);
    var s2 := OnTimerFired(s1).0;
    var s3 := OnQueryChange(s2, second);
    var s4 := OnTimerFired(s3).0;
    var s5 := OnResponse(s4, s.latestId + 2, LookupReturned(early), placeholder);
    var s6 := OnResponse(s5, s.latestId + 1, LookupReturned(late), placeholder);
    assert s4.latestId == s.latestId + 2;
    assert s6.places == places;
    assert Run(s5, events[5..], placeholder) == s6 by {
      assert events[5..][1..] == [];
    }
    assert Run(s4, events[4..], placeholder) == s6 by {
      assert events[4..][1..] == events[5..];
    }
    assert Run(s3, events[3..], placeholder) == s6 by {
      assert events[3..][1..] == events[4..];
    }
    assert Run(s2, events[2..], placeholder) == s6 by {
      assert events[2..][1..] == events[3..];
    }
    assert events[1..][1..] == events[2..];
  }

  /** The scenario with the queries "Lon" and "London", typed into a box
      that did not already read "Lon". */
  lemma LondonScenario(s: Session, early: JsValue, late: JsValue, places: seq<Place>, placeholder: nat -> JsValue)
    requires s.query != "Lon"
    requires ParseResults(early, placeholder) == Some(places)
    ensures Issued(s, LateScenario(s.latestId, "Lon", "London", early, late), placeholder) ==
              [Request(s.latestId + 1, "Lon"), Request(s.latestId + 2, "London")]
    ensures Run(s, LateScenario(s.latestId, "Lon", "London", early, late), placeholder).places == places
  {
    LonIsSearchable();
    LondonIsSearchable();
    LateScenarioIssuesBoth(s, "Lon", "London", early, late, placeholder);
    LateResponseIsDropped(s, "Lon", "London", early, late, places, placeholder);
  }

  /** Clearing the box does not retire a lookup already issued: the user
      changes the query to `q`, its lookup is issued, the box is cleared, and the response
      then arrives. It is still the latest request, so its places are shown
      under an empty query. */
  lemma {:induction false} ClearedQueryStillShowsLateResults(
    s: Session, q: string, json: JsValue, places: seq<Place>, placeholder: nat -> JsValue)
    requires Searchable(q) && q != s.query
    requires ParseResults(json, placeholder) == Some(places)
    ensures Run(s, [Typed(q), TimerFired, Typed(""), Responded(s.latestId + 1, LookupReturned(json))], placeholder)
            == Session("", places, None, s.latestId + 1, false)
  {
    var events := [Typed(q), TimerFired, Typed(""), Responded(s.latestId + 1, LookupReturned(json))];
    var s1 := OnQueryChange(s, q);
    var s2 := OnTimerFired(s1).0;
    var s3 := OnQueryChange(s2, "");
    var s4 := OnResponse(s3, s.latestId + 1, LookupReturned(json), placeholder);
    assert !Searchable("") && q != "";
    assert s4 == Session("", places, None, s.latestId + 1, false);
    assert Run(s3, events[3..], placeholder) == s4 by {
      assert events[3..][1..] == [];
    }
    assert Run(s2, events[2..], placeholder) == s4 by {
      assert events[2..][1..] == events[3..];
    }
    assert events[1..][1..] == events[2..];
  }

  /** A response whose id is not the latest issued never changes the
      suggestions, and neither does a failed lookup. */
  lemma StaleOrFailedKeepsPlaces(s: Session, id: nat, outcome: Lookup, placeholder: nat -> JsValue)
    requires id != s.latestId || outcome.LookupFailed?
    ensures OnResponse(s, id, outcome, placeholder).places == s.places
  {
  }
}
