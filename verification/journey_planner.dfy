/** The journey planner screen of `Frontend/screens/JourneyPlanner.jsx`: the
    `onSearch` protocol over `{from, to, results, loading, error}`, the duration
    shown for each trip leg, and the "No journey found" condition.

    The remote `getJourney` call is not modelled: issuing it is an output of
    `OnSearch`, and its completion is an input `Outcome` that arrives later, in
    any order relative to other completions. */
module JourneyPlanner {
  import opened Wrappers
  import opened Sequences

  /** One trip record returned by the journey service. `stopsInBetween` is
      `None` when the field is missing, `null` or `NaN`. */
  datatype TripLeg = TripLeg(
    startTime: string,
    endTime: string,
    stopsInBetween: Option<int>,
    routeNumber: string,
    tripHeadsign: string)

  /** The stop names a `getJourney(from, to)` call is issued with. */
  datatype Query = Query(from: string, to: string)

  /** The value `getJourney` resolves to: an array of legs, or anything else. */
  datatype Response = LegList(legs: seq<TripLeg>) | NotAList

  /** How the awaited `getJourney` call ends. */
  datatype Outcome = Resolved(data: Response) | Rejected

  /** The screen's React state. */
  datatype Screen = Screen(
    from: string,
    to: string,
    results: seq<TripLeg>,
    loading: bool,
    error: Option<string>)

  const MissingStopsMessage := "Enter both From and To stops"
  const FetchFailedMessage := "Failed to fetch journeys. Please try again."

  const Initial := Screen("", "", [], false, None)

  /** The state right after `onSearch` returns or reaches its `await`, and the
      request it issued, if any. */
  datatype Started = Started(screen: Screen, request: Option<Query>)

  /** The synchronous part of `onSearch`: the empty-field guard, then the loading
      protocol that precedes the remote call. */
  function OnSearch(s: Screen): (r: Started)
    ensures r.request.None? <==> (|s.from| == 0 || |s.to| == 0)
    ensures r.request.None? ==>
              r.screen == s.(error := Some(MissingStopsMessage))
    ensures r.request.Some? ==>
              && r.request.value == Query(s.from, s.to)
              && r.screen == s.(loading := true, error := None)
  {
    if |s.from| == 0 || |s.to| == 0 then
      Started(s.(error := Some(MissingStopsMessage)), None)
    else
      Started(s.(loading := true, error := None), Some(Query(s.from, s.to)))
  }

  /** `Array.isArray(data) ? data : []`. */
  function AsList(data: Response): (legs: seq<TripLeg>)
    ensures data.LegList? ==> legs == data.legs
    ensures data.NotAList? ==> legs == []
  {
    match data
    case LegList(legs) => legs
    case NotAList => []
  }

  /** The continuation of `onSearch` after the `await`: the `try`, `catch` and
      `finally` blocks. */
  function OnComplete(s: Screen, outcome: Outcome): (r: Screen)
    ensures !r.loading
    ensures r.from == s.from && r.to == s.to
    ensures outcome.Resolved? ==> r.results == AsList(outcome.data) && r.error == s.error
    ensures outcome.Rejected? ==> r.results == s.results && r.error == Some(FetchFailedMessage)
  {
    match outcome
    case Resolved(data) => s.(results := AsList(data), loading := false)
    case Rejected => s.(error := Some(FetchFailedMessage), loading := false)
  }

  /** `item.stops_in_between || 0`: a missing count reads as zero. */
  function StopsOrZero(leg: TripLeg): int
  {
    leg.stopsInBetween.GetOr(0)
  }

  /** The duration shown for a leg. `diffMinutes` stands for the time utility's
      `diffMinutesHHMMSS`, whose definition is not part of this model; it yields
      `None` where that function yields `NaN`. The fallback charges three minutes
      per intermediate stop. */
  function Duration(leg: TripLeg, diffMinutes: (string, string) -> Option<int>): (d: int)
    ensures diffMinutes(leg.startTime, leg.endTime).Some? ==>
              d == diffMinutes(leg.startTime, leg.endTime).value
    ensures diffMinutes(leg.startTime, leg.endTime).None? ==>
              && d == 3 * StopsOrZero(leg)
              && (StopsOrZero(leg) >= 0 ==> d >= 0)
  {
    var diff := diffMinutes(leg.startTime, leg.endTime);
    if diff.None? then StopsOrZero(leg) * 3 else diff.value
  }

  /** The durations rendered for a whole result list, one per leg. */
  function Durations(legs: seq<TripLeg>, diffMinutes: (string, string) -> Option<int>): (ds: seq<int>)
    ensures |ds| == |legs|
    ensures forall i :: 0 <= i < |legs| ==> ds[i] == Duration(legs[i], diffMinutes)
  {
    seq(|legs|, i requires 0 <= i < |legs| => Duration(legs[i], diffMinutes))
  }

  /** A missing or zero count gives a zero estimate; a measured diff overrides
      the count entirely. */
  lemma DurationFallback(leg: TripLeg, diffMinutes: (string, string) -> Option<int>)
    ensures diffMinutes(leg.startTime, leg.endTime).None? && leg.stopsInBetween.None? ==>
              Duration(leg, diffMinutes) == 0
    ensures diffMinutes(leg.startTime, leg.endTime).Some? ==>
              forall n :: Duration(leg.(stopsInBetween := n), diffMinutes) == Duration(leg, diffMinutes)
  {
  }

  /** When every count is non-negative and every measured diff is
      non-negative, every rendered duration is non-negative. */
  lemma DurationsNonNegative(legs: seq<TripLeg>, diffMinutes: (string, string) -> Option<int>)
    requires forall i :: 0 <= i < |legs| ==> StopsOrZero(legs[i]) >= 0
    requires forall i :: 0 <= i < |legs| ==>
               diffMinutes(legs[i].startTime, legs[i].endTime).Some? ==>
               diffMinutes(legs[i].startTime, legs[i].endTime).value >= 0
    ensures forall d :: d in Durations(legs, diffMinutes) ==> d >= 0
  {
    var ds := Durations(legs, diffMinutes);
    forall d | d in ds
      ensures d >= 0
    {
      var i :| 0 <= i < |ds| && ds[i] == d;
      assert d == Duration(legs[i], diffMinutes);
    }
  }

  /** Two legs: one whose times differ by 25 minutes, and one whose start time
      does not parse and that has four intermediate stops. */
  lemma DurationExamples(diffMinutes: (string, string) -> Option<int>)
    requires diffMinutes("09:00:00", "09:25:00") == Some(25)
    requires diffMinutes("bad", "09:25:00") == None
    ensures Duration(TripLeg("09:00:00", "09:25:00", Some(5), "103", "Hinjawadi"), diffMinutes) == 25
    ensures Duration(TripLeg("bad", "09:25:00", Some(4), "103", "Hinjawadi"), diffMinutes) == 12
  {
  }

  /** "No journey found" is rendered when nothing is loading, the list is empty
      and at least one stop name has been typed. */
  predicate NoJourneyShown(s: Screen)
  {
    !s.loading && |s.results| == 0 && (|s.from| > 0 || |s.to| > 0)
  }

  /** The message is hidden while a search is under way, and also when both
      names are empty, even though the guard has just refused the search. */
  lemma NoJourneyHidden(s: Screen)
    ensures |s.from| > 0 && |s.to| > 0 ==> !NoJourneyShown(OnSearch(s).screen)
    ensures |s.from| == 0 && |s.to| == 0 ==> !NoJourneyShown(OnSearch(s).screen)
    ensures |s.from| == 0 && |s.to| > 0 && |s.results| == 0 && !s.loading ==>
              NoJourneyShown(OnSearch(s).screen)
    ensures |s.from| > 0 && |s.to| == 0 && |s.results| == 0 && !s.loading ==>
              NoJourneyShown(OnSearch(s).screen)
  {
  }

  // ---------------------------------------------------------------------------
  // The screen together with its outstanding `getJourney` calls.

  /** The screen and the queries whose calls have not completed yet, in the
      order they were issued. */
  datatype Session = Session(screen: Screen, inFlight: seq<Query>)

  /** The user edits a field, presses search, or the `k`-th outstanding call
      completes (the network may complete calls in any order). */
  datatype Event =
    | EditFrom(text: string)
    | EditTo(text: string)
    | Search
    | Complete(k: nat, outcome: Outcome)

  function Step(ss: Session, e: Event): (r: Session)
  {
    match e
    case EditFrom(text) => ss.(screen := ss.screen.(from := text))
    case EditTo(text) => ss.(screen := ss.screen.(to := text))
    case Search =>
      var started := OnSearch(ss.screen);
      var issued := if started.request.Some? then [started.request.value] else [];
      Session(started.screen, ss.inFlight + issued)
    case Complete(k, outcome) =>
      if k < |ss.inFlight| then Session(OnComplete(ss.screen, outcome), RemoveAt(ss.inFlight, k))
      else ss
  }

  function Run(ss: Session, events: seq<Event>): (r: Session)
    decreases |events|
  {
    if |events| == 0 then ss else Run(Step(ss, events[0]), events[1..])
  }

  /** The spinner is only ever shown while some call is outstanding. */
  predicate Inv(ss: Session)
  {
    ss.screen.loading ==> |ss.inFlight| > 0
  }

  lemma StepPreservesInv(ss: Session, e: Event)
    requires Inv(ss)
    ensures Inv(Step(ss, e))
  {
  }

  lemma {:induction false} RunPreservesInv(ss: Session, events: seq<Event>)
    requires Inv(ss)
    ensures Inv(Run(ss, events))
    decreases |events|
  {
    if |events| > 0 {
      StepPreservesInv(ss, events[0]);
      RunPreservesInv(Step(ss, events[0]), events[1..]);
    }
  }

  /** With a stop name missing, pressing search only sets the message: no call
      is issued and the spinner and the list are untouched. */
  lemma GuardIssuesNoCall(ss: Session)
    requires |ss.screen.from| == 0 || |ss.screen.to| == 0
    ensures Step(ss, Search).inFlight == ss.inFlight
    ensures Step(ss, Search).screen.error == Some(MissingStopsMessage)
    ensures Step(ss, Search).screen.loading == ss.screen.loading
    ensures Step(ss, Search).screen.results == ss.screen.results
  {
  }

  /** A complete search with no other call outstanding: the call goes out with
      the typed names, and its completion leaves the spinner off, the list set
      to the (coerced) response on success and kept on failure, and the error
      cleared on success and set on failure. */
  lemma {:induction false} SearchRoundTrip(s: Screen, outcome: Outcome)
    requires |s.from| > 0 && |s.to| > 0
    ensures Step(Session(s, []), Search).inFlight == [Query(s.from, s.to)]
    ensures
      var done := Run(Session(s, []), [Search, Complete(0, outcome)]);
      && done.inFlight == []
      && !done.screen.loading
      && done.screen.from == s.from && done.screen.to == s.to
      && (outcome.Resolved? ==> done.screen.results == AsList(outcome.data) && done.screen.error.None?)
      && (outcome.Rejected? ==> done.screen.results == s.results && done.screen.error == Some(FetchFailedMessage))
  {
    var mid := Step(Session(s, []), Search);
    assert mid.inFlight == [Query(s.from, s.to)];
    var events := [Search, Complete(0, outcome)];
    assert events[1..] == [Complete(0, outcome)];
    assert Run(Session(s, []), events) == Run(mid, [Complete(0, outcome)]);
    assert [Complete(0, outcome)][1..] == [];
    assert Run(mid, [Complete(0, outcome)]) == Step(mid, Complete(0, outcome));
    assert RemoveAt(mid.inFlight, 0) == [];
  }

  /** A search whose response is not an array, or an empty array, ends with the
      "No journey found" message. */
  lemma {:induction false} EmptyResponseShowsNoJourney(s: Screen, data: Response)
    requires |s.from| > 0 && |s.to| > 0
    requires data.NotAList? || data.legs == []
    ensures NoJourneyShown(Run(Session(s, []), [Search, Complete(0, Resolved(data))]).screen)
  {
    SearchRoundTrip(s, Resolved(data));
  }

  /** A Quick Pick sets both names and searches in one handler, but the search
      reads the names from before the press. On an empty screen it therefore
      issues no call and only sets the missing-name message, although both
      names end up filled in. */
  lemma QuickPickUsesPreviousNames(from: string, to: string)
    requires |from| > 0 && |to| > 0
    ensures
      var after := Run(Session(Initial, []), [Search, EditFrom(from), EditTo(to)]);
      && after.inFlight == []
      && after.screen.error == Some(MissingStopsMessage)
      && after.screen.from == from && after.screen.to == to
      && !after.screen.loading
  {
    var events := [Search, EditFrom(from), EditTo(to)];
    var s1 := Step(Session(Initial, []), Search);
    assert s1.inFlight == [];
    var s2 := Step(s1, EditFrom(from));
    var s3 := Step(s2, EditTo(to));
    assert Run(s3, events[3..]) == s3 by {
      assert events[3..] == [];
    }
    assert Run(s2, events[2..]) == s3 by {
      assert events[2..][1..] == events[3..];
    }
    assert Run(s1, events[1..]) == s3 by {
      assert events[1..][1..] == events[2..];
    }
  }

  /** Nothing tracks which call the spinner belongs to: with two searches
      outstanding, the first completion turns the spinner off although a call is
      still pending, so the converse of `Inv` does not hold. */
  lemma LoadingClearsWhileCallOutstanding()
    ensures
      var s := Screen("Katraj", "Hinjawadi", [], false, None);
      var after := Run(Session(s, []), [Search, Search, Complete(0, Rejected)]);
      && !after.screen.loading
      && after.inFlight == [Query("Katraj", "Hinjawadi")]
  {
    var s := Screen("Katraj", "Hinjawadi", [], false, None);
    var q := Query("Katraj", "Hinjawadi");
    var s1 := Step(Session(s, []), Search);
    assert s1.inFlight == [q];
    var s2 := Step(s1, Search);
    assert s2.inFlight == [q, q];
    assert RemoveAt(s2.inFlight, 0) == [q];
  }
}
