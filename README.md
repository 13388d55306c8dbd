# Route transfer protocol of pebble-directions, in Dafny

This project models the phone-side core of pebble-directions (`src/js/app.js`).
That code turns a route found by a routing service into a chain of small app
messages for a Pebble watch. It then streams "current step" updates while the
user travels. The model covers five parts:

- **Status codec** (`protocol.dfy`, module `Protocol`). The SUCCESS field
  packs a status code and a request number as `code + messageNumber * 10`.
  Decoding uses `%` and `/`. Also here: cutting a step string to 128
  characters, and splitting the SEARCH string into a one-character route type
  and an address.
- **Transfer sequencer** (`transfer.dfy`, module `Transfer`). `sendRoute` and
  `sendStepItem` are one method, `SendRoute`. It is driven by the ack/fail
  outcomes of the sends that wait for an acknowledgement. It produces the
  messages handed to the transport and the phase where the chain stopped. It
  is proved against `FullTransfer`, the message sequence when every send is
  acknowledged. Lemmas about `FullTransfer` state the branch selection, the
  ordering and the single terminal status.
- **Request intake** (`intake.dfy` and `bridge.dfy`, modules `Intake` and
  `App`). The `appmessage` handler is `Bridge.OnAppMessage`. It takes the next
  request number from the counter, splits SEARCH, and resolves the address
  through the named-address list. Then it stops live tracking. The
  named-address `forEach` is the loop `ResolveNamedAddress`, proved against
  the fold `Substituted`.
- **Live step tracker** (`tracker.dfy`, module `Tracker`). The `routeData`
  record is the class `RouteData`. Its methods are start, stop and the
  position callback. A ghost field records the CURRENT values sent since the
  last start. The object invariant keeps those values strictly increasing and
  never above `currentStep`.
- **Retry rule** (`Tracker.SendCurrentStep`). A CURRENT update is attempted
  once, plus one retry if that attempt is rejected.

A few behaviours of the code are modelled as written, where the header comment
of `app.js` or a first reading of the code would suggest something else:

- The named-address loop reassigns the search text inside the loop. So each
  later entry is compared with the text as already substituted: a fold, not
  the single lookup that the header comment (`app.js` lines 36-40) describes. `Intake.FoldChainsSubstitutions` shows two entries where
  the two readings differ. `Intake.SubstitutedIsFirstMatch` gives the
  condition under which they agree: no address matches the name of a later
  entry.
- A found route with an empty step list still gets its overview sent. In the
  acknowledgement callback, `stepList[0].substr` then throws, so no status
  follows. The model records this as the phase `Crashed`, not as a
  precondition.
- Tracking starts for every found bike or walk route. This includes a route
  with more than 40 steps (which gets status 2) and a route whose overview send
  fails.
- `stopCurrentStepUpdates` clears the watch that `watchId` names but never
  resets `watchId`. `startCurrentStepUpdates` does not clear an earlier watch.
  `liveWatches` is the set of watches the position service still serves.
  Every start gets a handle that is not already open, as `watchPosition` returns a
  new id each time. So starting twice without a stop leaves both watches alive
  (`RouteData.Start`).
- Only a present, non-empty SEARCH field is accepted. The handler tests it for
  truthiness, so an empty string takes no request number.

Inputs that stand for collaborators:

- Transport outcomes are `seq<bool>` parameters.
- The route lookup result is a `RouteResult` parameter of
  `Bridge.OnRouteLoaded`.
- The step matcher is a function parameter returning `Option<int>`. `None`
  stands for a sample on which the matcher throws.
- The named-address list is a `seq<NamedAddress>`.
- Case folding is a function parameter. `AsciiLower` is a concrete instance
  used in one example.
- A watch handle is an `int` parameter.

## Model

| member | source | states |
|---|---|---|
| Protocol.EncodeStatus | src/js/app.js:64-68 | for a code below the padding 10, the SUCCESS value gives back the code under `% 10` and the request number under `/ 10` |
| Protocol.DecodeStatus | src/js/app.js:13-16 | decoding any SUCCESS value gives a code below 10 and a number that re-encode to that value |
| Protocol.StatusRoundTrip | src/js/app.js:49 | decode(encode(code, n)) == (code, n) for every code below 10 and every n >= 0 |
| Protocol.StatusDecodeEncode | src/js/app.js:15-16 | encode(decode(v)) == v for every SUCCESS value |
| Protocol.StatusEncodingInjective | src/js/app.js:64-68 | two (code, request) pairs with codes below 10 never share a SUCCESS value |
| Protocol.StatusOrderFollowsRequests | src/js/app.js:64-68 | a later request's SUCCESS value is larger than an earlier one's, whatever the two codes below 10 |
| Protocol.StatusPaddingTooSmallCollides | src/js/app.js:49 | code 10 for request n is the same value as code 0 for request n + 1, so codes must stay below the padding |
| Protocol.TruncateStep | src/js/app.js:84 | the step payload is a prefix of the step string of length min(length, 128); strings of at most 128 characters are sent unchanged |
| Protocol.TruncateStepIdempotent | src/js/app.js:47 | truncating an already truncated step string changes nothing |
| Protocol.ParseSearch | src/js/app.js:223 | type + address == SEARCH, and the type is the first character (empty for an empty string) |
| Protocol.ParseSearchExample | src/js/app.js:20-24 | the header's example "0Brockhofweg 9" splits into type "0" (car) and address "Brockhofweg 9" |
| Transfer.SendsOverview | src/js/app.js:105 | the overview branch is taken exactly for a found route with at most 40 steps |
| Transfer.Crashes | src/js/app.js:84 | a found route with an empty step list, for which `stepList[0].substr` throws once the overview is acknowledged |
| Transfer.FullTransfer | src/js/app.js:80-130 | the messages sent when every send is acknowledged: one more than the acknowledgements needed (exactly that many for a crashing route); only the last can be a status, and it is one unless the route crashes |
| Transfer.SendRoute | src/js/app.js:80-130 | the messages sent are the prefix of the full transfer up to and including the first unacknowledged send; the phase is Finished, Crashed, Failed or AwaitingAck exactly as the acknowledgements before the first rejection reach the needed count or not |
| Transfer.LeadingAcksSpec | src/js/app.js:87-100 | the count of acknowledgements before the first rejection: all counted outcomes are acks, and the next outcome, if any, is a rejection |
| Transfer.BranchSelection | src/js/app.js:103-130 | the overview comes first iff the route is found and has at most 40 steps; more than 40 steps gives only status 2, found or not; otherwise only status 1 |
| Transfer.CompleteTransferOrder | src/js/app.js:84-96 | a found route with 1 to 40 steps sends the overview, then each step in index order as a prefix of at most 128 characters, then one status 0 with the request number, with no status before it |
| Transfer.TerminalStatus | src/js/app.js:116-129 | unless the chain crashes, the last message is the only status, and it decodes to the expected code (0, 2 or 1) and the request number |
| Transfer.AllAckedSendsEverything | src/js/app.js:87-96 | when every send that waits for one is acknowledged, the whole transfer is sent |
| Transfer.FailedTransferIsSilent | src/js/app.js:97-100 | after a rejected overview or step send, what was sent contains no status, and, unless the route crashes (found, with no steps), is a strict prefix of the full transfer |
| Transfer.ThreeStepScenario | src/js/app.js:116-118 | a found three-step route sends overview, the three steps, then the status value `messageNumber * 10` |
| Intake.Visit | src/js/app.js:194-195 | one loop step: the text becomes the entry's address when the case-folded name equals the case-folded current text, and is kept otherwise |
| Intake.Substituted | src/js/app.js:193-198 | the search text after visiting every entry in order, each comparing against the text left by the previous ones |
| Intake.ResolveNamedAddress | src/js/app.js:193-198 | the loop over the named addresses yields the fold `Substituted` of the search text |
| Intake.SubstitutedNoMatch | src/js/app.js:194 | text that matches no entry name after case folding is passed on unchanged |
| Intake.SubstitutedMatchReplaces | src/js/app.js:36-40 | when some entry's name matches the search text, the result is the address of one of the entries |
| Intake.SubstitutedOrigin | src/js/app.js:195 | the resolved address is the search text or the address of one of the entries |
| Intake.SubstitutedIsFirstMatch | src/js/app.js:193-198 | if no entry's address matches a later entry's name, the fold equals "first matching entry wins" |
| Intake.FoldChainsSubstitutions | src/js/app.js:193-198 | with "home" -> "work" then "work" -> "Office 1", "home" resolves to "Office 1" while first-match would give "work" |
| Intake.NamedAddressExample | src/js/app.js:36-40 | an entry named "Home" replaces the search text "home" by its address, ignoring case |
| Tracker.NextStep | src/js/app.js:167-171 | the current step never decreases, and it changes exactly when the matcher returns a strictly greater index, which it then becomes |
| Tracker.SendCurrentStep | src/js/app.js:133-151 | one or two CURRENT attempts, all carrying the index; the second exists iff retry is allowed and the first is rejected |
| Tracker.RouteData.constructor | src/js/app.js:56-60 | empty waypoints, step 0, no watch |
| Tracker.RouteData.Start | src/js/app.js:154-177 | given a handle not already open (the position service issues a new one per watch): stores the waypoints, resets the step to 0, records and opens the new watch, keeps earlier watches alive, and clears the record of sent updates |
| Tracker.RouteData.Stop | src/js/app.js:180-185 | closes the watch `watchId` names (nothing if there is none), keeps the object invariant, and changes nothing else |
| Tracker.RouteData.OnPosition | src/js/app.js:161-173 | called only while some watch is open; the step becomes NextStep of the matcher's answer; only on a strict advance is a CURRENT update with one retry sent and recorded; the first attempts stay strictly increasing and at most the current step |
| Tracker.RestartScenario | src/js/app.js:180-185 | stopping the only live watch, then starting, leaves exactly the new watch alive and the step at 0 |
| App.Bridge.constructor | src/js/app.js:48 | the counter starts at 0 with no number issued and no watch |
| App.Bridge.OnAppMessage | src/js/app.js:213-227 | a non-empty SEARCH takes the current counter value as request number, increments the counter, carries the first character as type and the address resolved through the named addresses, and stops tracking; anything else changes nothing |
| App.IsTrackable | src/js/app.js:206 | live tracking follows the route types "1" (bike) and "3" (walk) only |
| App.Bridge.OnRouteLoaded | src/js/app.js:200-209 | the messages and all four phases are exactly those of SendRoute, and tracking restarts (step 0, no updates recorded) with the route's waypoints iff the route is found and the type is "1" or "3" |
| App.IssuedNumbersIncrease | src/js/app.js:220-221 | in a valid bridge the numbers handed out are strictly increasing and all below the counter |
| App.TwoSearches | src/js/app.js:218-223 | two searches get consecutive numbers and their own types "0" and "2"; an empty SEARCH after them takes no number |

## Left out

- Message transport (`Pebble.sendAppMessage` and its callbacks) is not modelled as asynchrony. Each send's outcome is an input, and the terminal status send's own outcome, which the code only logs, is not an input.
- Overlapping requests are not modelled. The code does not serialize them, and `Bridge.OnRouteLoaded` runs one whole transfer as one step. This hides two orderings.
  - Tracking starts as soon as `sendRoute` has issued the overview send, so a request's own CURRENT updates can reach the watch between its step items.
  - Splitting `Bridge.OnAppMessage` from `Bridge.OnRouteLoaded` assumes the lookup calls back after the handler returns. A synchronous callback would start tracking before `stopCurrentStepUpdates` runs, and that call would then close the new watch.
- The position service (`watchPosition` / `clearWatch`) becomes integer handles and the `liveWatches` set. Its options, timeouts and error callback (which does nothing) are left out.
- `locationService.createRoute` and `getCurrentStepIndex` (`./location.js`) are not part of this model. Their results are parameters.
- `config.getNamedAddresses()` (`./config.js`) is not part of this model. The list is a parameter, and `toLowerCase` is an abstract case folding.
- Logging, the message-key table, and JavaScript number coercion are left out. Distances, times and coordinates are opaque integers, and `routeType == 1 || routeType == 3` is a comparison with the strings "1" and "3".
- Tracker.RouteData.OnPosition: the retry of a rejected CURRENT send runs in the send's failure callback, after the position callback has returned. A later sample may already have sent a greater step by then, so the watch can receive CURRENT 5 followed by a retried CURRENT 3. The model performs the retry within the same sample, so strict increase is proved for first attempts (`emitted`) only, not for the stream of messages as the watch receives it.
- Tracker.RouteData.OnPosition: an exception thrown by the matcher is modelled as the matcher answering None. A synchronous throw from the send itself is not modelled.
- Step-text truncation (`Protocol.TruncateStep`) and the SEARCH split (`Protocol.ParseSearch`) count elements of a `seq<char>`, not UTF-16 code units, so a character outside the Basic Multilingual Plane counts as one element, where `substr` would see two.
