/** The debounced route search of `Frontend/screens/Home.jsx` (`handleSearch`),
    as a sequential transition system on one event loop.

    Time is abstracted to the order of events: a `TimerFires` event means the
    armed timer elapsed before the next keystroke. The remote `searchRoutes`
    call is not modelled: issuing it is an output of a step, and its completion
    is a later `SearchOk` or `SearchFail` event naming which outstanding call
    completed, in any order. */
module RouteSearch {
  import opened Wrappers
  import opened Sequences

  /** A route record as the search service returns it. */
  datatype Route = Route(routeId: string, exampleTripId: string, approxTravelTimes: seq<int>)

  /** The quiet period, in milliseconds, before a search is issued. */
  const DebounceDelay := 500

  const FetchFailedMessage := "Failed to fetch routes. Please try again."

  /** An armed `setTimeout` callback: it searches for the query it captured. */
  datatype Timer = Timer(query: string, delay: int)

  /** The screen's React state and timer ref, plus the queries whose search
      calls have not completed yet, in the order they were issued. */
  datatype Home = Home(
    query: string,
    pendingTimer: Option<Timer>,
    routes: seq<Route>,
    loading: bool,
    error: Option<string>,
    inFlight: seq<string>)

  const Initial := Home("", None, [], false, None, [])

  datatype Event =
    | Keystroke(text: string)
    | TimerFires
    | SearchOk(k: nat, results: seq<Route>)
    | SearchFail(k: nat)

  /** The state after a step and the search call it issued, if any. */
  datatype Transition = Transition(home: Home, issued: Option<string>)

  /** `handleSearch(text)`: record the text, cancel any armed timer, then either
      clear the list at once (empty text) or arm a new timer bound to the text.
      Searches already in flight are not affected. */
  function HandleSearch(h: Home, text: string): (r: Home)
    ensures r.query == text
    ensures |text| == 0 ==> r.pendingTimer.None? && r.routes == []
    ensures |text| > 0 ==> r.pendingTimer == Some(Timer(text, DebounceDelay)) && r.routes == h.routes
    ensures r.loading == h.loading && r.error == h.error && r.inFlight == h.inFlight
  {
    var cancelled := h.(query := text, pendingTimer := None);
    if |text| == 0 then cancelled.(routes := [])
    else cancelled.(pendingTimer := Some(Timer(text, DebounceDelay)))
  }

  /** The armed callback runs: the spinner turns on, the error clears, and the
      search for the captured query goes out. Without an armed timer nothing
      happens. */
  function FireTimer(h: Home): (r: Transition)
    ensures r.home.pendingTimer.None?
    ensures h.pendingTimer.None? <==> r.issued.None?
    ensures h.pendingTimer.None? ==> r.home == h
    ensures h.pendingTimer.Some? ==>
              && r.issued == Some(h.pendingTimer.value.query)
              && r.home.loading && r.home.error.None?
              && r.home.inFlight == h.inFlight + [h.pendingTimer.value.query]
              && r.home.query == h.query && r.home.routes == h.routes
  {
    match h.pendingTimer
    case None => Transition(h, None)
    case Some(t) =>
      Transition(
        h.(pendingTimer := None, loading := true, error := None, inFlight := h.inFlight + [t.query]),
        Some(t.query))
  }

  /** The `k`-th outstanding search completes. Its results replace the list
      whatever the current query is; a failure sets the message and keeps the
      list. The spinner turns off either way. */
  function Settle(h: Home, k: nat, outcome: Option<seq<Route>>): (r: Home)
    ensures k >= |h.inFlight| ==> r == h
    ensures k < |h.inFlight| ==>
              && !r.loading
              && r.inFlight == RemoveAt(h.inFlight, k)
              && r.query == h.query && r.pendingTimer == h.pendingTimer
              && (outcome.Some? ==> r.routes == outcome.value && r.error == h.error)
              && (outcome.None? ==> r.routes == h.routes && r.error == Some(FetchFailedMessage))
  {
    if k >= |h.inFlight| then h
    else
      var done := h.(loading := false, inFlight := RemoveAt(h.inFlight, k));
      match outcome
      case Some(results) => done.(routes := results)
      case None => done.(error := Some(FetchFailedMessage))
  }

  function Step(h: Home, e: Event): Transition
  {
    match e
    case Keystroke(text) => Transition(HandleSearch(h, text), None)
    case TimerFires => FireTimer(h)
    case SearchOk(k, results) => Transition(Settle(h, k, Some(results)), None)
    case SearchFail(k) => Transition(Settle(h, k, None), None)
  }

  /** The final state of a run and the queries searched for, in order. */
  datatype Trace = Trace(final: Home, searches: seq<string>)

  function Issued(t: Transition): seq<string>
  {
    if t.issued.Some? then [t.issued.value] else []
  }

  function Run(h: Home, events: seq<Event>): Trace
    decreases |events|
  {
    if |events| == 0 then Trace(h, [])
    else
      var t := Step(h, events[0]);
      var rest := Run(t.home, events[1..]);
      Trace(rest.final, Issued(t) + rest.searches)
  }

  function Keystrokes(texts: seq<string>): (events: seq<Event>)
    ensures |events| == |texts|
    ensures forall i :: 0 <= i < |texts| ==> events[i] == Keystroke(texts[i])
  {
    seq(|texts|, i requires 0 <= i < |texts| => Keystroke(texts[i]))
  }

  /** The number of timer firings in a run. */
  function Fires(events: seq<Event>): nat
    decreases |events|
  {
    if |events| == 0 then 0
    else (if events[0].TimerFires? then 1 else 0) + Fires(events[1..])
  }

  /** "No routes found" is rendered for an empty list when nothing is loading
      and the query is not empty. */
  predicate NoRoutesShown(h: Home)
  {
    |h.routes| == 0 && !h.loading && |h.query| > 0
  }

  /** At most one timer is armed (the state holds an `Option`), and an armed
      timer is a 500 ms timer bound to the current, non-empty query; the spinner
      is only shown while some search is outstanding. */
  predicate Inv(h: Home)
  {
    && (h.pendingTimer.Some? ==>
          h.pendingTimer.value == Timer(h.query, DebounceDelay) && |h.query| > 0)
    && (h.loading ==> |h.inFlight| > 0)
  }

  lemma InitialInv()
    ensures Inv(Initial)
  {
  }

  lemma StepPreservesInv(h: Home, e: Event)
    requires Inv(h)
    ensures Inv(Step(h, e).home)
  {
  }

  lemma {:induction false} RunPreservesInv(h: Home, events: seq<Event>)
    requires Inv(h)
    ensures Inv(Run(h, events).final)
    decreases |events|
  {
    if |events| > 0 {
      StepPreservesInv(h, events[0]);
      RunPreservesInv(Step(h, events[0]).home, events[1..]);
    }
  }

  /** In a reachable state a fired timer searches for exactly the query on
      screen, and never for the empty query. */
  lemma FiredSearchIsCurrentQuery(h: Home)
    requires Inv(h)
    ensures Step(h, TimerFires).issued.Some? ==>
              Step(h, TimerFires).issued.value == h.query && |h.query| > 0
  {
  }

  /** Only a timer firing issues a search, so a run issues at most one search
      per firing. */
  lemma {:induction false} SearchesBoundedByFires(h: Home, events: seq<Event>)
    ensures |Run(h, events).searches| <= Fires(events)
    decreases |events|
  {
    if |events| > 0 {
      SearchesBoundedByFires(Step(h, events[0]).home, events[1..]);
    }
  }

  lemma {:induction false} RunAppend(h: Home, a: seq<Event>, b: seq<Event>)
    ensures Run(h, a + b).final == Run(Run(h, a).final, b).final
    ensures Run(h, a + b).searches == Run(h, a).searches + Run(Run(h, a).final, b).searches
    decreases |a|
  {
    if |a| == 0 {
      assert a + b == b;
    } else {
      assert (a + b)[0] == a[0];
      assert (a + b)[1..] == a[1..] + b;
      RunAppend(Step(h, a[0]).home, a[1..], b);
    }
  }

  /** A burst of keystrokes issues no search and leaves only the last text on
      screen, with a timer armed for it exactly when it is non-empty. */
  lemma {:induction false} KeystrokesOnly(h: Home, texts: seq<string>)
    requires |texts| > 0
    ensures Run(h, Keystrokes(texts)).searches == []
    ensures Run(h, Keystrokes(texts)).final.query == texts[|texts| - 1]
    ensures Run(h, Keystrokes(texts)).final.pendingTimer ==
              if |texts[|texts| - 1]| > 0 then Some(Timer(texts[|texts| - 1], DebounceDelay)) else None
    ensures Run(h, Keystrokes(texts)).final.inFlight == h.inFlight
    decreases |texts|
  {
    var events := Keystrokes(texts);
    var h1 := HandleSearch(h, texts[0]);
    assert Step(h, events[0]) == Transition(h1, None);
    assert events[1..] == Keystrokes(texts[1..]);
    if |texts| > 1 {
      KeystrokesOnly(h1, texts[1..]);
    } else {
      assert events[1..] == [];
    }
  }

  /** Debounce: keystrokes with no firing in between followed by one firing
      issue exactly one search, for the last text, or none if it is empty. */
  lemma {:induction false} LastKeystrokeWins(h: Home, texts: seq<string>)
    requires |texts| > 0
    ensures var last := texts[|texts| - 1];
            Run(h, Keystrokes(texts) + [TimerFires]).searches == if |last| > 0 then [last] else []
  {
    RunAppend(h, Keystrokes(texts), [TimerFires]);
    KeystrokesOnly(h, texts);
    var mid := Run(h, Keystrokes(texts)).final;
    assert Run(mid, [TimerFires]) == Trace(Step(mid, TimerFires).home, Issued(Step(mid, TimerFires)));
  }

  /** Typing "K", "Ka", "Kat" before the timer fires searches for "Kat" only. */
  lemma KatExample(h: Home)
    ensures Run(h, [Keystroke("K"), Keystroke("Ka"), Keystroke("Kat"), TimerFires]).searches == ["Kat"]
  {
    var texts := ["K", "Ka", "Kat"];
    assert Keystrokes(texts) + [TimerFires] == [Keystroke("K"), Keystroke("Ka"), Keystroke("Kat"), TimerFires];
    LastKeystrokeWins(h, texts);
  }

  /** Clearing the query empties the list at once, disarms the timer and issues
      nothing, so "No routes found" is not shown. */
  lemma ClearingQuery(h: Home)
    ensures Step(h, Keystroke("")).issued.None?
    ensures Step(h, Keystroke("")).home.routes == []
    ensures Step(h, Keystroke("")).home.pendingTimer.None?
    ensures !NoRoutesShown(Step(h, Keystroke("")).home)
  {
  }

  /** Responses are not gated by request: clearing the query does not stop a
      search already in flight, and its results still replace the list. */
  lemma ClearingDoesNotStopInFlight(h: Home, results: seq<Route>)
    requires |h.inFlight| > 0
    ensures var cleared := Step(h, Keystroke("")).home;
            && Step(cleared, SearchOk(0, results)).home.routes == results
            && Step(cleared, SearchOk(0, results)).home.query == ""
  {
  }

  /** The response of an older search that arrives last wins: search "A" then
      "B"; "B" answers first, then "A", and the list shows A's routes while the
      query reads "B". */
  lemma StaleResponseOverwrites(forA: seq<Route>, forB: seq<Route>)
    ensures
      var events := [Keystroke("A"), TimerFires, Keystroke("B"), TimerFires,
                     SearchOk(1, forB), SearchOk(0, forA)];
      && Run(Initial, events).searches == ["A", "B"]
      && Run(Initial, events).final.query == "B"
      && Run(Initial, events).final.routes == forA
  {
    var events := [Keystroke("A"), TimerFires, Keystroke("B"), TimerFires,
                   SearchOk(1, forB), SearchOk(0, forA)];
    var h1 := Step(Initial, events[0]).home;
    var h2 := Step(h1, events[1]).home;
    var h3 := Step(h2, events[2]).home;
    var h4 := Step(h3, events[3]).home;
    assert h4.inFlight == ["A", "B"];
    var h5 := Step(h4, events[4]).home;
    assert h5.inFlight == ["A"];
    var h6 := Step(h5, events[5]).home;
    assert h6.routes == forA && h6.query == "B";
    assert Run(h5, events[5..]) == Trace(h6, []) by {
      assert events[5..][1..] == [];
    }
    assert Run(h4, events[4..]) == Trace(h6, []) by {
      assert events[4..][1..] == events[5..];
    }
    assert Run(h3, events[3..]) == Trace(h6, ["B"]) by {
      assert events[3..][1..] == events[4..];
    }
    assert Run(h2, events[2..]) == Trace(h6, ["B"]) by {
      assert events[2..][1..] == events[3..];
    }
    assert Run(h1, events[1..]) == Trace(h6, ["A", "B"]) by {
      assert events[1..][1..] == events[2..];
    }
  }

  /** An empty result for a non-empty query, with no other search outstanding,
      ends with "No routes found". */
  lemma EmptyResultShowsNoRoutes(h: Home)
    requires |h.query| > 0 && |h.inFlight| == 1
    ensures NoRoutesShown(Step(h, SearchOk(0, [])).home)
  {
  }
}
