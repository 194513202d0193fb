# CityRide journey core in Dafny

A model of the parts of the CityRide bus app that contain real logic:

- the **itinerary calculator** `calculateJourney` (`utils/journeyUtils.js`). It derives the stop count and travel time between two stops of a route from the route's per-stop `approxTravelTimes`. Each entry is charged to the stop being arrived at. The index order does not matter.
- the **journey planner** screen (`Frontend/screens/JourneyPlanner.jsx`). This covers three parts:
  - `onSearch`: the empty-field guard, the loading and error protocol, and the coercion of a non-array response to `[]`.
  - the duration shown for each trip leg, which is the measured diff or, when that is `NaN`, three minutes per intermediate stop.
  - the "No journey found" condition.
- the **debounced route search** of the home screen (`Frontend/screens/Home.jsx`, `handleSearch`). Every keystroke cancels the armed timer. An empty query clears the list at once. A non-empty query arms one 500 ms timer bound to that text. When the timer fires, it turns the spinner on and issues `searchRoutes`. The call's outcome replaces the list or sets an error message.

Modules:

- `Wrappers` (`wrappers.dfy`): the `Option` type.
- `Sequences` (`sequences.dfy`): a helper that removes one element from a sequence.
- `Itinerary` (`itinerary.dfy`): `JourneyOf` is a reference definition over `seq<int>`. `CalculateJourney` is the source's loop. The file also holds the lemmas.
- `JourneyPlanner` (`journey_planner.dfy`): the screen state, `OnSearch` and `OnComplete`, and the durations. A `Session` pairs the screen with its outstanding `getJourney` calls, and `Step` and `Run` drive it.
- `RouteSearch` (`route_search.dfy`): the home-screen state `{query, pendingTimer, routes, loading, error}` plus the outstanding searches. The events are `Keystroke`, `TimerFires`, `SearchOk` and `SearchFail`, all on one logical event loop.

Time is abstracted: a `TimerFires` event means the armed timer elapsed before the next keystroke. The remote calls `searchRoutes` and `getJourney` are represented only by what they hand back:
- issuing a call is an output of a step;
- its completion is a later event that names which outstanding call completed, so the network may answer in any order.

The time utility `diffMinutesHHMMSS` is not part of this model. It is a function parameter `(string, string) -> Option<int>`, where `None` stands for `NaN`.

Two behaviours of the code are modelled as written:
- **No stale-response gating.** `Home.jsx` has no request sequence number: every completion overwrites the list, so a late response from an older search wins. `RouteSearch.StaleResponseOverwrites` and `RouteSearch.ClearingDoesNotStopInFlight` prove the behaviour the code actually has.
- **No index guard.** `calculateJourney` has no range guard and raises no error, so `ValidSpan` states which indices the loop reads: entries `min + 1 .. max`. That makes `min = -1` well defined, and equal indices are fine at any value.

## Model

| member | source | states |
|---|---|---|
| Itinerary.JourneyOf | utils/journeyUtils.js:3-5 | the itinerary's stop count is never negative |
| Itinerary.CalculateJourney | utils/journeyUtils.js:1-11 | the loop that normalises the index order and accumulates entries `s+1..e` computes exactly the reference itinerary: the stop count is `abs(start - end)` and the time is the sum over `(min, max]` |
| Itinerary.SameStopIsFree | utils/journeyUtils.js:2 | equal indices give `{0, 0}` for every index value, out of range included |
| Itinerary.NumStopsIsDistance | utils/journeyUtils.js:3-5 | the stop count equals the distance between the two indices |
| Itinerary.Symmetric | utils/journeyUtils.js:3-4 | swapping start and end gives an identical itinerary |
| Itinerary.ExtendByOneStop | utils/journeyUtils.js:7-9 | extending the range by one stop adds exactly that stop's arrival time, so the entry at the larger index is charged |
| Itinerary.ReadsOnlySpan | utils/journeyUtils.js:7-8 | two tables that agree on indices in `(min, max]` give the same itinerary, so the entry at the smaller index and everything past the larger one are never read |
| Itinerary.Additive | utils/journeyUtils.js:5-9 | for `s <= m <= e`, stop counts and times from `s` to `e` are the sums of those from `s` to `m` and from `m` to `e` |
| Itinerary.TotalTimeNonNegative | utils/journeyUtils.js:6-9 | non-negative travel times give a non-negative total |
| Itinerary.WideningIsMonotone | utils/journeyUtils.js:7-9 | with non-negative times, widening the range never lowers the total |
| Itinerary.WorkedExample | utils/journeyUtils.js:3-10 | times `[0,4,6,3,5,2,7]` between stops 2 and 5, in either order, give 3 stops and 10 minutes |
| JourneyPlanner.OnSearch | Frontend/screens/JourneyPlanner.jsx:24-30 | a call is issued iff both names are non-empty. If one is empty, only the error message is set. Otherwise the call carries the typed names, and the spinner turns on and the error clears first |
| JourneyPlanner.AsList | Frontend/screens/JourneyPlanner.jsx:33 | an array response is kept as is; anything else becomes the empty list |
| JourneyPlanner.OnComplete | Frontend/screens/JourneyPlanner.jsx:31-38 | the spinner is off after every completion. Success replaces the list with the coerced response and leaves the error alone. Failure sets the fetch-failure message and keeps the list |
| JourneyPlanner.Duration | Frontend/screens/JourneyPlanner.jsx:42-45 | a measured diff is shown as is. A `NaN` diff gives three times the stop count, a missing count reads as 0, and the estimate is non-negative for a non-negative count |
| JourneyPlanner.Durations | Frontend/screens/JourneyPlanner.jsx:161-164 | one duration is rendered per leg, in order |
| JourneyPlanner.DurationFallback | Frontend/screens/JourneyPlanner.jsx:43-44 | a missing count with a `NaN` diff gives 0, and a measured diff makes the stop count irrelevant |
| JourneyPlanner.DurationsNonNegative | Frontend/screens/JourneyPlanner.jsx:42-45 | non-negative counts and non-negative measured diffs give non-negative rendered durations |
| JourneyPlanner.DurationExamples | Frontend/screens/JourneyPlanner.jsx:42-45 | a leg measured at 25 minutes shows 25, and a leg with an unparsable time and 4 intermediate stops shows 12 |
| JourneyPlanner.NoJourneyHidden | Frontend/screens/JourneyPlanner.jsx:166 | "No journey found" is hidden while a search starts and when both names are empty. It shows after a refused search with exactly one name typed, either one, with an empty list and nothing loading |
| JourneyPlanner.QuickPickUsesPreviousNames | Frontend/screens/JourneyPlanner.jsx:114-117 | a Quick Pick on an empty screen, with the search reading the names from before the press, issues no call and sets the missing-name message, although both names end up filled in |
| JourneyPlanner.StepPreservesInv | Frontend/screens/JourneyPlanner.jsx:24-38 | no event can show the spinner without an outstanding call |
| JourneyPlanner.RunPreservesInv | Frontend/screens/JourneyPlanner.jsx:24-38 | the spinner implies an outstanding call, after any sequence of edits, searches and completions |
| JourneyPlanner.GuardIssuesNoCall | Frontend/screens/JourneyPlanner.jsx:25-28 | with a name missing, search issues no call, sets the message, and leaves the spinner and the list unchanged |
| JourneyPlanner.SearchRoundTrip | Frontend/screens/JourneyPlanner.jsx:24-38 | a search followed by its completion issues one call with the typed names. It ends with the spinner off. On success the list holds the coerced response and the error is cleared. On failure the list is kept and the message is set |
| JourneyPlanner.EmptyResponseShowsNoJourney | Frontend/screens/JourneyPlanner.jsx:33 | an empty or non-array response ends with "No journey found" shown (condition at line 166) |
| JourneyPlanner.LoadingClearsWhileCallOutstanding | Frontend/screens/JourneyPlanner.jsx:29-37 | with two searches outstanding, the first completion turns the spinner off while a call is still pending |
| RouteSearch.HandleSearch | Frontend/screens/Home.jsx:24-35 | every keystroke records the text and cancels the armed timer. Empty text clears the list and leaves no timer. Other text arms exactly one 500 ms timer bound to it and keeps the list. Spinner, error and outstanding searches are untouched |
| RouteSearch.FireTimer | Frontend/screens/Home.jsx:35-39 | firing issues a search iff a timer is armed, for the timer's captured query. Before the await, the spinner turns on and the error clears. The timer is then disarmed |
| RouteSearch.Settle | Frontend/screens/Home.jsx:38-46 | a completion removes its search and turns the spinner off. Success replaces the list whatever the current query. Failure sets the message and keeps the list. An unknown call changes nothing |
| RouteSearch.InitialInv | Frontend/screens/Home.jsx:18-22 | the initial state has no timer and no spinner |
| RouteSearch.StepPreservesInv | Frontend/screens/Home.jsx:24-48 | every event keeps the invariant: at most one timer, any armed timer is a 500 ms timer bound to the current non-empty query, and the spinner implies an outstanding search |
| RouteSearch.RunPreservesInv | Frontend/screens/Home.jsx:24-48 | the invariant holds after any sequence of events |
| RouteSearch.FiredSearchIsCurrentQuery | Frontend/screens/Home.jsx:35-39 | in an invariant state a firing searches for exactly the query on screen, and never for the empty query |
| RouteSearch.SearchesBoundedByFires | Frontend/screens/Home.jsx:35-39 | a run issues no more searches than timer firings, and keystrokes and completions issue none |
| RouteSearch.KeystrokesOnly | Frontend/screens/Home.jsx:24-35 | a burst of keystrokes issues no search. It leaves the last text on screen, with a timer armed for it iff it is non-empty |
| RouteSearch.LastKeystrokeWins | Frontend/screens/Home.jsx:26-39 | keystrokes then one firing issue exactly one search, for the last text, or none when it is empty |
| RouteSearch.KatExample | Frontend/screens/Home.jsx:24-39 | typing "K", "Ka", "Kat" before the timer fires searches for "Kat" only |
| RouteSearch.ClearingQuery | Frontend/screens/Home.jsx:30-33 | clearing the query empties the list and disarms the timer without a search, and "No routes found" is then hidden |
| RouteSearch.ClearingDoesNotStopInFlight | Frontend/screens/Home.jsx:30-40 | a search in flight when the query is cleared still replaces the list with its results |
| RouteSearch.StaleResponseOverwrites | Frontend/screens/Home.jsx:35-40 | searches for "A" then "B", with "B" answering first, end with A's routes listed under query "B" |
| RouteSearch.EmptyResultShowsNoRoutes | Frontend/screens/Home.jsx:122-127 | an empty result for a non-empty query, with no other search outstanding, ends with "No routes found" shown |

## Left out

- Rendering, styling, images, icons, navigation (`Frontend/App.js`, `Frontend/screens/Welcome.jsx`) and the route-card press handlers: presentation only.
- `diffMinutesHHMMSS` in `utils/timeUtils` is not part of this model: it is a parameter, and no HH:MM:SS parsing is specified.
- `searchRoutes` and `getJourney` in `services/api` are not part of this model. Their results are arbitrary inputs, and their latency, ordering and failures are nondeterministic events.
- JavaScript number semantics: travel times, diffs and stop counts are unbounded integers, not floating point. Non-integer indices are excluded by the `int` parameter type. Reads of `undefined` past the table (which give `NaN`) are excluded by `ValidSpan` rather than modelled.
- React state batching: each handler's state updates are applied together. The Quick Picks buttons call `onSearch` right after `setFrom`/`setTo` and so read the previous names (`Frontend/screens/JourneyPlanner.jsx:114-117`). The model has no separate Quick Pick handler. A Quick Pick is the event order `Search, EditFrom(a), EditTo(b)`: the search sees the names from before the press. `JourneyPlanner.QuickPickUsesPreviousNames` proves that from an empty screen it issues no call and only sets the missing-name message.
- Home's timer ref keeps a fired timer's handle until the next keystroke, and clearing it then does nothing. The model shows only armed timers, so a fired timer reads as none.
- `console.error` on a failed route search: logging only.
- Request sequence-number gating is not added: the code has none, and the model proves the ungated behaviour.
