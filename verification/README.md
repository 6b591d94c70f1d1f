# Capture system model

A Dafny model of the parts of the capture system that decide what is collected, by whom, how fast, and what is kept:

- **The coordinator** (`actions/coordinator.py`): one server that many workers ask for leases on games, for a share of the
  rounds each game still needs, for permission to send a request, and to store and acknowledge finished rounds.
  `CoordinatorTypes` holds its state as values. `CoordinatorSteps` says what each operation does to that state.
  `Coordinator.Store` is the server as an object whose fields the operations update in place; each method is proved to
  take the state exactly where its step says. `Runs`, `TurnOrder`, `LeaseSafety`, `Openings`, `ReturnedLeases`,
  `LeaseLimits`, `ReservedSeats`, `Dismissal`, `QuotaSafety`, `Reservations`, `ShardSplit`, `EgressSafety`, `RoundFiles`,
  `ReservedAppends`, `RequestJournal` and `WaitingLine` prove what holds over whole histories of requests, in any
  interleaving. `Openings` is a second account of how a claim is answered, by the names of statuses and by counts against
  targets, that shares none of the conditions of the first.
- **The client** (`oaks.ts`, `src/protocol.ts`, `src/shop.ts`, `src/game-definition.ts`): `Capture` is the recount of a
  game's history and the loop that collects rounds until every mode has met its target; `Rounds` is playing one round,
  with interruptions, and checking it; `SpinModes` is the actions the client builds and the mode a round counts under.
- **Both together**: `QuotaProtocol` runs the loop behind the coordinator's answer and proves that what it collects keeps the
  coordinator's quota; `RecountedQuota` does so for workers that report a recount of the file they restored.
- **The canonical text of a round** (`src/mongo-store.ts`): `CanonicalJson`, the printer whose output is hashed to tell
  rounds apart.
- **The resource crawl** (`src/resource-graph.ts`): `ResourceCrawl`, a concurrent worklist proved equal to a plain
  first-in-first-out traversal.
- **The game catalog** (`src/catalog.ts`): `Catalog`, which merges the official list into the registry and hands out
  numbers.

`Base` and `Sorting` hold the shared helpers. `dafny verify dfyconfig.toml` checks the whole project.

A history is a sequence of states and requests in which each request takes one state to the next (`Behavior`). Requests
are unrestricted: any worker may send any operation at any time. Where a result needs the client to behave, its
precondition says how: a worker names its own node (`OwnNode`, or just when that node is halted, `KeepsOut`), does not
give a lease back as `running` (`GivesBack`), stores no more than it reserved (`Disciplined`, which `QuotaProtocol`
derives from the client's loop), reserves before it appends (`ReservesFirst`); the checker of accepted games accepts
none beside a second shard (`AcceptsAlone`). The coordinator enforces none of these, and where one is missing the
results say exactly when the property still holds.

## Where the code and its intent differ

The model follows the code. These statements about it are proved as lemmas:

- The limit of two transient failures per game and run (`actions/coordinator.py:50-52`) counts only failures reported under
  one and the same lease, because a new lease starts from a fresh count (`LeaseLimits.RetryLimitExact`): it never takes
  effect while only running leases are given back (`LeaseLimits.RetryLimitNeverBinds`), so that a game can fail any number of
  times in one run (`LeaseLimits.FailsAnyNumberOfTimes`), and does when one is given back twice
  (`LeaseLimits.RepeatedReportsBind`).
- Without `fillIdleNormal` two shards of one game can run on the same node (`LeaseSafety.ShardsMayShareANode`), exactly when
  a claim is let through where the second shard of the first game that can start is running (`LeaseSafety.ShardsApartIff`).
- With `fillIdleNormal` a worker is dismissed while a game waits out its retry minute and nothing runs, although the game
  opens again before the end of the run (`Dismissal.DismissedTooEarly`, exactly when by
  `Dismissal.WaitingGamesKeepWorkersIff`).
- An answer to a permit is recorded only while its holder has a lease on the game (`EgressSafety.AnswerRecordedIff`), so the
  permit stays in the table for the rest of the run when the breaker takes the lease away (`EgressSafety.HaltLosesPermits`,
  at a concrete state in `EgressSafety.HaltLosesAPermit`), or, without any breaker, when the holder gives it back and
  another worker is leased the shard (`EgressSafety.ReleaseLosesPermits`, `EgressSafety.LostPermitsStay`).
- When all containers share one egress, the breaker hands back no lease, since no worker belongs to a node of that name
  (`EgressSafety.SharedHaltReleasesNothingIff`).
- A worker that has given its lease back can still store rounds under it (`LeaseLimits.FinishedLeasesStillWrite`).
- The line of waiting requests, described as first-in-first-out at `actions/coordinator.py:749`, has no influence on who
  is served (`WaitingLine.WaitingLineDecidesNothing`).
- A count reported above what the coordinator knows, while rounds are promised to another worker, makes a reservation
  overshoot the target (`QuotaSafety.StaleReportOvershoots`); a run stays within it exactly when every report fits
  (`QuotaSafety.NoQuotaOvershoot`), and workers that report a recount of the file they restored never leave it
  (`RecountedQuota.RecountingWorkersNeverOvershoot`).
- A game accepted while its second shard still runs can become unresolved again (`ReservedSeats.LateAcceptanceReopens`) and
  then wants a seat that a normal lease has taken (`ReservedSeats.LateAcceptanceTakesASeat`); the seats stay reserved
  exactly when every game that is reopened finds a free one (`ReservedSeats.SeatsStayReserved`).
- Accepting a game throws its counts away. A second shard that still holds its lease then fails after it has written the
  file (`ReservedAppends.AcceptanceLosesCounts`), and the group sync loses track of those lines
  (`RoundFiles.UnsyncedTailBounded`).
- The collecting loop overshoots a target by exactly one when it resumes a left-over round whose mode is already met
  (`Capture.CaptureRounds`). That takes a runtime that hands such a round over: a worker of the queue clears it with every
  new lease (`actions/worker.ts:353`), so its captures stay within what was reserved (`Capture.CaptureReserved`).
- The canonical text does not distinguish an array holding an undefined item from an empty one
  (`CanonicalJson.UndefinedItemsVanish`). Round data is parsed JSON and never holds such a value.

## Model

| member | source | states |
|---|---|---|
| LeaseSafety.LeaseSafety | actions/coordinator.py:493-572 | in every state any history reaches: running leases within `maxClaims`, each node within its even share, a game within `maxShards`, and no game collected normally and for purchases at once |
| LeaseSafety.GrantOrder | actions/coordinator.py:508-569 | purchase games come first: a first shard is granted exactly when some game can start, and then the first such game is, neither skipped nor accepted; a second shard only when no game waits for its first, a normal lease only when none waits for either; in the other two passes too the first game that can start wins; what can start is said without the conditions of the passes in `Openings.ClaimAnswered` |
| Openings.ClaimAnswered | actions/coordinator.py:485-572 | the exact answer to every claim of the run in charge: halted, dismissed, told to wait at most 30 s for the pause or 15 s for the next start, put off while the seats or the node are full, else the first game open for a first shard, then for a second, then for normal rounds, where open is said by status names and by counts against targets |
| Openings.LeaseEntry | actions/coordinator.py:369-375 | a lease is noted under its shard as running, with the worker, the node it named, the time and no failure, and the rounds of its game can be looked up |
| LeaseSafety.NodeShareIff | actions/coordinator.py:500-504 | a node has room for another lease exactly while it holds fewer than the share of `maxClaims` that, taken by every node, covers them all |
| ReturnedLeases.OpensForPurchases | actions/coordinator.py:508-525 | over any history: once a purchase lease was given back as released, waiting or shard-complete and the game rests, a claim let through from a free node while targets are missing is answered with a purchase lease on that game or on an open one before it; a complete first shard waits for a running second one |
| ReturnedLeases.OpensForNormalRounds | actions/coordinator.py:556-569 | and once its targets are met, while no purchase game is open, with a normal lease on that game or on an open one before it |
| ReturnedLeases.ShutForTheRun | actions/coordinator.py:69-73 | a lease given back as failed, unavailable, accepted or under any other name is not handed out again in that run |
| ReturnedLeases.RetryWaitsAMinute | actions/coordinator.py:711-713 | one given back as failed for now is not handed out again for 60 s |
| ReturnedLeases.RestingEntry | actions/coordinator.py:707-713 | until it is leased or reported again, the entry of a returned lease says what was reported, unless its game was accepted |
| LeaseSafety.PurchaseLeasesOwnTheirNode | actions/coordinator.py:353-358 | with `fillIdleNormal`, two running leases on one node are both normal, and the shards of a game run on different nodes |
| LeaseSafety.ShardsMayShareANode | actions/coordinator.py:511-525 | a state that keeps every lease rule, and a claim after which both shards of a game run on one node |
| LeaseSafety.ShardsApartIff | actions/coordinator.py:511-540 | over any history the shards of every game run on different nodes in every state exactly when no claim is let through on the node where the second shard of the first purchase game that can start runs, all read off the state before the claim |
| LeaseSafety.PickPrimarySound | actions/coordinator.py:511-525 | the first pass returns the first purchase game that is neither skipped nor accepted, and starts or stops no lease |
| LeaseSafety.PickPrimaryMarks | actions/coordinator.py:519-524 | on its way the first pass marks exactly the accepted games it would otherwise have picked, and leaves every other game alone |
| ReservedSeats.SeatsStayReserved | actions/coordinator.py:542-554 | throughout a run, either no normal lease runs or running normal leases plus unresolved purchase games fit in `maxClaims`, exactly when every request that reopens a game finds a free seat for it |
| ReservedSeats.LateAcceptanceReopens | actions/coordinator.py:521-524 | when a game is accepted while its second shard runs, that shard's first reservation makes it unresolved again exactly when it reports a purchase mode below its target |
| ReservedSeats.AloneKeepsSeats | actions/coordinator.py:519-524 | while no game becomes accepted beside a second shard and no failed lease is given back as anything else, every seat stays reserved |
| ReservedSeats.LateAcceptanceTakesASeat | actions/coordinator.py:521-554 | a state with two seats, one normal lease and one unresolved game in which such a reservation leaves three for the two |
| Dismissal.DismissedIff | actions/coordinator.py:493-572 | a claim is answered with a dismissal exactly when the run is over or paused past its end, or the claim is let through, nothing is open, nothing runs and no purchase game is unresolved, or, with `fillIdleNormal`, fewer are than there are seats |
| Dismissal.WaitingGamesKeepWorkersIff | actions/coordinator.py:542-554 | while a purchase game is unresolved a worker is kept, exactly unless `fillIdleNormal` is on with fewer such games than seats, nothing is open and nothing runs |
| Dismissal.DismissedTooEarly | actions/coordinator.py:570-572 | a state with one game in its retry minute where the claim is answered with a dismissal, though the game can start 30 s later, before the end of the run |
| QuotaSafety.NoQuotaOvershoot | actions/coordinator.py:581-618 | over a whole run and any interleaving, given that workers store no more than they reserved: stored plus promised rounds of a purchase mode stay within the target or the largest report in every state exactly when every report fits beside what is promised when it comes in |
| QuotaSafety.KnownReportsNeverOvershoot | actions/coordinator.py:597-612 | the bound holds over the whole run when no report exceeds the count the coordinator holds at that moment |
| QuotaSafety.RecordCases | actions/coordinator.py:581-693 | what any request but a begin does to the record of a game: a report is taken in, a stored batch is credited, exactly the reservations of the workers that lost their lease are taken away, the record is dropped as the game is accepted, or it stays as it is |
| QuotaSafety.ReserveWithinBoundIff | actions/coordinator.py:597-612 | a single reservation keeps that bound exactly when the larger count plus what is promised fits |
| QuotaSafety.StaleReportOvershoots | actions/coordinator.py:597-598 | a concrete late report that leaves thirteen rounds stored or promised against a target of ten |
| QuotaSafety.CreditConserves | actions/coordinator.py:684-693 | storing rounds within a reservation leaves stored plus promised rounds as they were |
| QuotaSafety.ExactSplit | actions/coordinator.py:599-612 | of a gap of r rounds the first shard reserves ceil(r/2) and the second floor(r/2) less what its report exceeds the known count by; so the two make exactly r if and only if the second reports no more than is known or has nothing to reserve |
| ShardSplit.SplitOverHistory | actions/coordinator.py:599-612 | the same split between two reservations of a history, whatever claims, permits and stored rounds come between; when the first reservation was taken back by then, by a returned lease, a halt or an acceptance, the second is like a first one over what is lacking then |
| QuotaSafety.OutstandingRemove | actions/coordinator.py:606-607 | the sum over other workers does not depend on the order in which they are visited |
| QuotaProtocol.ReservationAnswers | actions/coordinator.py:599-618 | under a purchase lease a first reservation promises exactly what it reserves, and its answer is the reported counts plus that |
| Reservations.NormalReport | actions/coordinator.py:582-583 | under a normal lease a report is answered with the targets it asked for, and nothing changes |
| Reservations.PurchaseReport | actions/coordinator.py:613-618 | under a purchase lease a report is answered, mode by mode, with its own count plus what the worker holds reserved; a repeated report leaves the reservation as it was |
| Reservations.RefusedReport | actions/coordinator.py:584-593 | a report under a purchase lease is refused, and changes nothing, exactly when it has no targets, a negative mode or a count without a target, or other targets than the game was given |
| Reservations.CollectNormally | oaks.ts:426-557 | the client's loop run behind the answer to a normal lease: a complete ending means every target asked for is met, out of rounds that one is not, and no mode ends past its target and its starting count |
| Reservations.FirstReportTakes | actions/coordinator.py:599-612 | a worker without a reservation takes, of every purchase mode, the smallest number that, taken by every shard without one, covers what is missing and owed by nobody |
| Reservations.ReturnFreesReservation | actions/coordinator.py:724 | giving a purchase lease back takes away that worker's reservation on the game and nothing else: other reservations, counts, targets and other games stay; a normal lease takes nothing away |
| Reservations.ReturnedPromisesStayGone | actions/coordinator.py:347-350 | over any history the reservation stays gone until that worker reports on the game again |
| Reservations.UnavailableExactly | actions/coordinator.py:719-723 | in every state of any history a game that was not accepted is unavailable exactly when leases on it were given back as unavailable from as many different nodes as it has shards |
| QuotaProtocol.CollectReserved | oaks.ts:426-557 | after a first reservation, the client's loop run with the targets it is told collects no more of any mode than the reservation owes, each round once; and wherever the reservation stands and only rounds of the collection are sent, the worker is sending a collection under its reservation |
| QuotaProtocol.BatchTakes | actions/coordinator.py:661-693 | a batch takes off what is missing of a collection exactly what it newly stores, whatever was stored before |
| QuotaProtocol.CoveredIsDisciplined | actions/worker.ts:60-71 | sending a collection in any batches, again after lost replies and beside another shard, never stores more than the reservation owes |
| QuotaProtocol.ClientsNeverOvershoot | actions/coordinator.py:581-698 | when every batch comes from what its worker collected under a reservation, or stores nothing new, the quota bound holds in every state exactly when every report fitted |
| RecountedQuota.ReportOfFile | oaks.ts:329-349 | the recount of a restored file reports, for every mode asked for, the rounds of that mode in the file |
| RecountedQuota.RecountingWorkersNeverOvershoot | actions/coordinator.py:581-698 | when workers report a recount of the file as they restored it, however old: over the whole run the coordinator's count is exactly the file's, and the file with everything promised stays within the target, or what the file held at the start if that was more |
| RecountedQuota.FileStaysWithinTarget | actions/coordinator.py:581-698 | with workers that also store only what they collected under a reservation, the file of a game with a record never outgrows its target or what it held at the start |
| EgressSafety.EgressRate | actions/coordinator.py:762-770 | within a run the k-th permit after another comes at least k times `nodeMs` later, and a window of length L holds at most L / nodeMs + 1, also when the clock goes back |
| EgressSafety.RetryAfterHonoured | actions/coordinator.py:793-799 | after a 429 at t no permit is granted on its egress before t + max(10 s, delay) for a delay, max(t + 10 s, the date) for a date, and t + 60 s for a header that cannot be read |
| EgressSafety.BackoffIsExact | actions/coordinator.py:101-113 | and exactly that time is when the egress is held until, unless it was held longer already; no other egress is touched |
| EgressSafety.PermitGrantedIff | actions/coordinator.py:726-773 | a permit is granted if and only if the worker has a lease in the run in charge, no breaker or overload is in force, the key is proper and not kept back by the journal, the run is not over or paused, there is capacity and the egress is free; it is then held for `nodeMs` |
| EgressSafety.PermitAnswered | actions/coordinator.py:726-770 | the exact answer to any other request for a permit: refused, replayed, stopped, or told to wait 50 ms, until the egress is free, or at most 30 s for the pause |
| EgressSafety.AnswerTaken | actions/coordinator.py:773-818 | a recorded answer settles its permit, writes an answer in full to the journal with the judgement sent or that of its status, and changes nothing else unless it is a 429; the reply says when to go on and whether to halt |
| EgressSafety.PauseHolds | actions/coordinator.py:494-496 | across any number of runs no lease or permit is granted before a pause deadline set earlier |
| EgressSafety.UntilRises | actions/coordinator.py:432 | the shared pause never moves back, across runs |
| EgressSafety.WindowExact | actions/coordinator.py:803-805 | for any clock: a 429 is on the pruned list exactly when it was recorded and was less than two minutes old at every 429 recorded since |
| EgressSafety.ForwardClock | actions/coordinator.py:803-805 | when the clock does not go back, the nodes that count are exactly those throttled in the last two minutes of the whole run |
| EgressSafety.PauseIsExact | actions/coordinator.py:803-810 | for any clock, and with a shared egress too: a 429 moves the pause to the time its egress is held until exactly when the nodes recently throttled reach max(2, ceil(nodes / 2)) or the egress is shared, and leaves it alone otherwise |
| EgressSafety.BreakerIsExact | actions/coordinator.py:800-814 | a node is halted exactly when enough different workers on it have met a 429 since the run began |
| EgressSafety.BelongsIff | actions/coordinator.py:40-57 | a worker belongs to a node exactly when it is named as a numbered thread of that numbered node, or is not so named at all and bears its name |
| EgressSafety.HaltedNodesAreRefused | actions/coordinator.py:485-488 | until the next run every claim and permit request that names a halted node is turned away, and every one once the shared egress is halted |
| EgressSafety.HaltedNodesHoldNoLease | actions/coordinator.py:329-338 | also with a shared egress: no worker of a halted node holds a running lease, as long as such workers do not ask under another node's name; when all name their own nodes, no running lease names a halted node |
| EgressSafety.SharedHaltReleasesNothingIff | actions/coordinator.py:726-727 | a 429 that trips a shared egress changes no lease, reservation or quota, unless a worker with a running lease belongs to a node that bears the egress's name |
| EgressSafety.TripIsExact | actions/coordinator.py:329-350 | when the breaker trips, exactly the running leases of the node's workers are given up, can be claimed again at once and lose their reservations; everybody else keeps theirs |
| EgressSafety.PermitsBounded | actions/coordinator.py:749-770 | in every reachable state at most `maxInFlight` permits are out and no request waits twice |
| EgressSafety.PermitConservation | actions/coordinator.py:768-789 | within a run, grants equal recorded answers plus permits that are out plus grants of a key that was still out |
| EgressSafety.KeyConservation | actions/coordinator.py:768-777 | over any history and for every key: grants of a key that was not out, less its recorded answers and the permits taken back with their run, are one when it is out and none otherwise |
| EgressSafety.AnsweredByItsHolder | actions/coordinator.py:774-777 | every recorded answer comes from the worker, and is for the game, that the key was last granted to |
| EgressSafety.AnswerRecordedIff | actions/coordinator.py:574-576 | the answer of a permit's holder is recorded exactly when the run is in charge and the holder still has a lease on the game |
| EgressSafety.LostPermitsStay | actions/coordinator.py:574-577 | a permit whose holder has no lease stays in the table, and every answer to it is refused, until the run ends, the key is granted again or its holder is leased the game again |
| EgressSafety.HaltLosesPermits | actions/coordinator.py:329-338 | after the breaker trips, every permit out to the node's workers stays in the table unsettled until the run ends or its key is granted again, unless the holder had given its lease back itself |
| EgressSafety.HaltLosesAPermit | actions/coordinator.py:808-814 | a state with two permits out on one node where a 429 trips the breaker and the answer to the other permit is then refused |
| EgressSafety.ReleaseLosesPermits | actions/coordinator.py:340-345 | when a shard is leased to another worker, the permits its former holder has out on the game stay in the table unsettled, unless that worker has the other shard, until the run ends, the key is granted again or it is leased the game again |
| RoundFiles.RoundFilesExact | actions/coordinator.py:649-706 | in every reachable state a game's file is the first occurrences of everything submitted, without repeats; index and cache hold the same hashes; the acknowledged recovery point is in it |
| RoundFiles.BatchingIrrelevant | actions/coordinator.py:661-682 | cutting rounds into batches differently, or sending them again, gives the same file |
| RoundFiles.BatchAccounting | actions/coordinator.py:671-698 | written plus duplicates is the size of the batch, and the file grows by exactly the written rounds |
| RoundFiles.ImproperBatchRefused | actions/coordinator.py:649-660 | a batch is refused unchanged unless it has 1 to 25 rounds of the game named, each with a hash of 64 hexadecimal digits; after a proper one all its rounds are in the file |
| RoundFiles.BatchWrittenIff | actions/coordinator.py:649-698 | a batch under a lease is answered as written exactly when it is proper and does not fail after writing |
| RoundFiles.GroupSync | actions/coordinator.py:675-697 | in the daemon a batch reaches the disk with the line that makes 25 waiting ones, and not before; without it every batch does at once |
| RoundFiles.AckAcceptedIff | actions/coordinator.py:699-703 | an acknowledgement is accepted exactly when its round is in the file |
| RoundFiles.RecoveryPointIsLast | actions/coordinator.py:699-706 | over any history the recovery point of a game is the hash last acknowledged for it |
| RoundFiles.KnownIsExact | actions/coordinator.py:293-313 | whichever of cache, index or file is consulted, the known hashes are those in the file |
| RoundFiles.UnsyncedTailBounded | actions/coordinator.py:684-697 | in the daemon at most 24 lines of a file are not known to be on disk, and exactly those are counted, in every state of a history exactly when no append fails after writing |
| RoundFiles.ReturnedLeasesAreSynced | actions/coordinator.py:707-709 | as long as none has, giving a lease back leaves nothing of its game unsynced |
| RoundFiles.AppendTailIff | actions/coordinator.py:684-697 | one append keeps that bound exactly when it does not fail after writing |
| ReservedAppends.ReservedAppendsFindCounts | actions/coordinator.py:684-691 | when workers reserve under a purchase lease before they store, and no game becomes accepted beside a second shard, no append meets a quota record without counts |
| ReservedAppends.ReservingKeepsTailBounded | actions/coordinator.py:684-697 | for such workers the unsynced tail of every file stays bounded |
| ReservedAppends.AcceptanceLosesCounts | actions/coordinator.py:521-524 | after a game is accepted beside a second shard, that shard's next append fails after writing, whatever it had reserved |
| RequestJournal.NoBlindReissue | actions/coordinator.py:731-741 | over any stretch of any history, beside requests in any form, the journalled grants of a key exceed its recorded failures by at most the one that was open at its start |
| RequestJournal.GrantsAreSeparated | actions/coordinator.py:734-741 | between two journalled grants of a key an answer that is no confirmed success was recorded |
| RequestJournal.ConfirmedAnswersAreReplayed | actions/coordinator.py:738-739 | after a confirmed success every later journalled request for the key is answered with that same response, as long as no further answer in full is recorded for it |
| RequestJournal.LostRequestsStayRefused | actions/coordinator.py:740-741 | a key whose answer is unknown stays refused, across `end` and `begin`, as long as no answer in full is recorded for it |
| RequestJournal.FullFormIsFinal | actions/coordinator.py:734-741 | when every permit for the key is asked for in full, no answer is recorded after a confirmed one, nor after an unknown outcome whose permit is gone |
| LeaseLimits.RetryLimitNeverBinds | actions/coordinator.py:69-73 | while only running leases are reported as failed for now, such a game is open again exactly when its minute has passed |
| LeaseLimits.FailsAnyNumberOfTimes | actions/coordinator.py:711-715 | for every n a run in which one game fails for now n times and opens again after each minute |
| LeaseLimits.RetryLimitExact | actions/coordinator.py:69-73 | in every history: a game that failed for now is open again exactly when its minute has passed and its last lease was reported so only once |
| LeaseLimits.RepeatedReportsBind | actions/coordinator.py:711-715 | after the same report twice under one lease the game is closed, whatever the clock |
| LeaseLimits.FinishedLeasesStillWrite | actions/coordinator.py:340-345 | a worker that gave its lease back still passes the lease check, and the rounds of its next valid batch are in the file afterwards |
| Runs.RunBegins | actions/coordinator.py:417-477 | a run begins exactly when the old one is gone or over, the handoff is proved and the lists name something and at most 500; it starts afresh with the budget of the request, at most two shards, and the longer of both pauses |
| Runs.RefusedBegin | actions/coordinator.py:419-453 | a refused begin changes nothing but, in the daemon's memory, the lock and permits of a run known to be over and the pause of a proved handoff |
| Runs.RunGames | actions/coordinator.py:434-454 | the games of a run are exactly the active ones its request allows, and its purchase games exactly those of them with purchase modes, in the order of the run |
| Runs.RunTakesItsTurn | actions/coordinator.py:442-453 | a run begins with the game noted as next, or the one handed over when none is noted, unless some game is preferred |
| Runs.LeasesFollowTheRequest | actions/coordinator.py:434-454 | over any history purchase leases go only to games that the request of their run lists with purchase modes, and all leases to games it allows |
| Runs.LeasesSpaced | actions/coordinator.py:505-506 | any two leases of a run start at least the start spacing apart, and the next may start right then |
| Runs.OverloadSets | actions/coordinator_daemon.py:85-95 | an overload verdict is noted for the run in charge, and dropped without one |
| Runs.OverloadLasts | actions/coordinator.py:489-492 | after an overload verdict no claim and no permit of that run gets anywhere |
| Runs.RunEnds | actions/coordinator.py:480-484 | only the run in charge can end, and ending takes the lock, the permits and the line |
| Runs.OnlyTheOwnerActs | actions/coordinator.py:478-479 | requests of any other run change nothing |
| Runs.OnlyLeaseholdersAct | actions/coordinator.py:573-576 | nobody acts on a game without a lease on it |
| Runs.ActsUnder | actions/coordinator.py:340-345 | a worker acts under the lease it holds on the game, the first shard's if it holds both |
| TurnOrder.RunOrderExact | actions/coordinator.py:442-453 | a run takes every game exactly once, and every preferred game before any other |
| TurnOrder.RunOrderKeepsCycle | actions/coordinator.py:442-453 | two games that are both preferred, or both not, come in the order they have from the cursor on |
| TurnOrder.RotationKeepsCycle | actions/coordinator.py:375-376 | starting a run elsewhere in the cycle does not change which game follows which |
| TurnOrder.NextRunContinues | actions/coordinator.py:433-453 | for runs begun with any lists: the next run's order is its own games rotated to the one that follows, in the earlier run's order, the game that run last granted a first-shard or normal lease for, preferred ones first; both are games of the earlier run |
| TurnOrder.NextRunBegins | actions/coordinator.py:442-453 | so it begins with that game, or with the first preferred one from it on around the cycle, when there is any |
| TurnOrder.PlainRunsContinue | actions/coordinator.py:442-445 | two runs over the same whole list continue the cycle of that list, wherever the first had begun |
| WaitingLine.WaitingLineDecidesNothing | actions/coordinator.py:749-769 | for every request, neither the reply nor any other part of the state depends on who is waiting |
| Coordinator.Store.SyncAll | actions/coordinator.py:235-238 | every game ends synced and nothing is pending |
| Coordinator.Store.SeedIndex | actions/coordinator.py:302-309 | the index rebuilt from a file holds its readable hashes in order |
| Coordinator.Store.ReleaseNode | actions/coordinator.py:329-338 | visiting the leases in any order hands back what the step describes at once |
| Coordinator.Store.PassPrimary | actions/coordinator.py:511-525 | the loop picks the game, and marks the accepted ones, that the recursive pass prescribes |
| Coordinator.Store.PassSecondary | actions/coordinator.py:527-540 | the loop picks the game the second pass prescribes, if second shards are allowed at all |
| Coordinator.Store.PassNormal | actions/coordinator.py:556-569 | the loop picks the game, and marks the accepted ones, that the third pass prescribes |
| Coordinator.Store.SumOwed | actions/coordinator.py:606-607 | the loop over reservations computes the order-free sum of what is still owed |
| Coordinator.Store.NewReservation | actions/coordinator.py:599-612 | the loop over modes builds the reservation the step prescribes |
| Coordinator.Store.RaiseCounts | actions/coordinator.py:597-598 | each count becomes the larger of the known and the reported one |
| Coordinator.Store.FreshRounds | actions/coordinator.py:663-670 | the loop keeps the first occurrence of every unknown hash |
| Coordinator.Store.CreditRounds | actions/coordinator.py:684-693 | the loop credits each stored round to its mode and to the worker's reservation |
| Coordinator.Store.Execute | actions/coordinator.py:390-818 | every request takes the object exactly where the step function says, with its reply; what that step does is said without it in `Runs`, `Openings`, `Reservations`, `EgressSafety` and `RoundFiles` |
| Coordinator.Store.ExecuteAll | actions/coordinator.py:258-275 | any sequence of requests drives the object through a history, so every history result holds of it |
| Capture.LastModesExact | oaks.ts:341-347 | a hash is counted under the mode of its last document that is not a test sample |
| Capture.Recount | oaks.ts:329-349 | the incremental counts are, for every mode, the number of different hashes last stored under it |
| SpinModes.BuyModesAgree | src/game-definition.ts:63-107 | every purchase mode of a session has one positive number, for the provider and for counting |
| SpinModes.BuyModesExact | src/game-definition.ts:63-107 | an error exactly when purchases are priced in two ways, one is priced twice, a list is empty, or a number or price is not positive; otherwise one mode for every price, in the order of numbers |
| SpinModes.ActionsExact | src/shop.ts:65-92 | the actions are exactly a spin and the boosters with positive numbers and prices when spins are offered, and the priced purchases that are available, or all when none is listed, when purchases are |
| SpinModes.BuiltRoundsKeepTheirMode | src/shop.ts:65-92 | whatever a session offers, a round played with an action the client builds is recounted under the mode it was collected for, when the first frame repeats the parameters, omits them or counts purchases from zero |
| SpinModes.RecountKeepsModeIff | src/protocol.ts:302-323 | for every built action, whatever the first frame says: the round keeps its mode exactly when the frame names no other one |
| SpinModes.ModesCollideIff | src/protocol.ts:302-311 | two different built actions count under one mode only when a purchase carries the number of a booster's place in its range |
| SpinModes.ModesAre | src/protocol.ts:302-311 | a spin counts as 0, a purchase under its number, a booster under its number plus 1000 |
| SpinModes.RoundModeIs | src/protocol.ts:313-323 | the mode of a stored round: kept for a purchase whose first frame counts from zero, else the mode the frame names, else that of a booster it was stored as |
| Capture.RemainingExact | oaks.ts:271-281 | a mode remains exactly when it is asked for and its count is below its target, its own or the default for normal rounds and purchases |
| Capture.NormalComesLast | oaks.ts:280 | a normal round heads the list only when no purchase is missing |
| Capture.RemainingNone | oaks.ts:429-430 | nothing remains exactly when every target is met |
| Capture.CaptureRounds | oaks.ts:429-557 | what is collected is, play by play, every round not known before, once, under the mode of its play; each play is the left-over round or a mode still short, normal rounds only once purchases are met; a mode ends past its target and its starting count exactly when a left-over round that was not needed was stored; it gives up exactly after more than `maxRetries` failures in a row, stops at once on a fatal error, is out of rounds only when the limit is used up, and complete only when every target is met |
| Capture.CaptureReserved | oaks.ts:426-557 | with the targets the coordinator hands out, the loop collects of each mode at most what was reserved |
| Rounds.AnswersAgree | oaks.ts:233-245 | against a deterministic server two accounts of a round agree as far as both go |
| Rounds.CompleteUnique | oaks.ts:239-245 | every partial account of a round that can be completed is a prefix of the completed one |
| Rounds.NextActionIff | src/protocol.ts:190-194 | what follows a frame is the first action on offer that is not a new spin; nothing, even with actions on offer, once the frame says that the round is finished |
| Rounds.CompleteRound | src/protocol.ts:190-194 | in a complete account every frame answers the opening and the first actions offered since, no frame but the last says that the round is finished, and the last does or offers nothing |
| Rounds.CaptureRuntime.PlayRound | oaks.ts:223-249 | whatever interrupts a call, what it saved is a longer true account of the same round; a finished one is complete, and a call stops exactly at the first check that says so |
| Rounds.ResumeExact | oaks.ts:223-249 | resuming a round that can be completed gives the frames of the whole round, and is given up exactly when more than 100 frames are missing |
| Rounds.InterruptionsAgree | oaks.ts:223-249 | after any number of interruptions the call that finishes returns what one uninterrupted call would |
| Rounds.RoundWin | src/protocol.ts:196-208 | the backward search finds the win of the last frame that has one |
| Rounds.CumulativeWinIff | src/protocol.ts:225-233 | a frame's win is the first that is present and not negative of its current state's total and round win and its context's |
| Rounds.ValidateCommonRound | src/protocol.ts:249-285 | a round is accepted exactly when it is acceptable, and otherwise the problem named is the first check that fails, all earlier ones having passed |
| Rounds.ExplanationUnique | src/protocol.ts:249-285 | at most one problem is the first failing check of a round |
| Rounds.AcceptedRoundPaysItsMost | src/protocol.ts:256-284 | an accepted round's wins never fall, and it pays what its last frame says, the most of all |
| Rounds.CaseDoesNotMatter | src/protocol.ts:252-283 | whether a round is accepted does not depend on the case of letters in actions and offers |
| Rounds.PlayedActionsAreOffered | src/protocol.ts:190-194 | a round played against a server that echoes actions never fails the check that every action was on offer |
| CanonicalJson.ValueBack | src/mongo-store.ts:25-32 | a parser reads back every printed value and leaves what follows |
| CanonicalJson.StableIsPrint | src/mongo-store.ts:25-32 | the printer is sorting every object by key and then printing in order |
| CanonicalJson.StableExact | src/mongo-store.ts:25-32 | two JSON values print the same exactly when they are equal with unordered objects |
| CanonicalJson.StableReads | src/mongo-store.ts:25-32 | the text reads back as the value itself with the members of every object in the order of their keys |
| CanonicalJson.UndefinedItemsVanish | src/mongo-store.ts:26 | an undefined array item prints as nothing, so two different values share a text |
| CanonicalJson.SanitizeExact | src/mongo-store.ts:14-23 | sanitised values are equal exactly when the originals are, apart from sensitive members at any depth |
| CanonicalJson.SanitizeIs | src/mongo-store.ts:12-23 | exactly the members named authorization, cookie, huid, queue, request_id, session_id or token in any case are taken away, at every depth, and everything else stays |
| CanonicalJson.SanitizeIdempotent | src/mongo-store.ts:14-23 | sanitising twice is sanitising once |
| CanonicalJson.SanitizeProper | src/mongo-store.ts:14-23 | a sanitised value is a JSON value again, with no key twice |
| CanonicalJson.PreImageExact | src/mongo-store.ts:33-39 | two rounds have the same hash input exactly when they belong to the same game and their data agree apart from key order and sensitive members |
| CanonicalJson.PreImageReads | src/mongo-store.ts:33-39 | the hash input reads back as an object of exactly the game's number, its name and its data without secrets, in the order of their names |
| CanonicalJson.RehashingAgrees | src/mongo-store.ts:33-39 | hashing a stored round again, whose data was sanitised before, gives the same input |
| ResourceCrawl.Crawl | src/resource-graph.ts:222-306 | for every batch size and every completion order the reports are those of the one-at-a-time traversal, and the crawl ends; no batch is larger than asked for or than 32 |
| ResourceCrawl.NextBatch | src/resource-graph.ts:287-294 | taking a batch off the queue and owing its references is the same traversal |
| ResourceCrawl.RunBatch | src/resource-graph.ts:296 | in any completion order a batch adds the same reports and keeps references by position |
| ResourceCrawl.ProcessOne | src/resource-graph.ts:234-283 | one URL adds its file or its failure and yields its references |
| ResourceCrawl.Enqueue | src/resource-graph.ts:297-301 | the references not seen yet are queued in batch order |
| ResourceCrawl.VisitSkips | src/resource-graph.ts:297-301 | leaving out seen references before queueing changes nothing |
| ResourceCrawl.OrderIsClosure | src/resource-graph.ts:286-302 | the pages handled are exactly those reachable from the entries, each once |
| ResourceCrawl.VisitIsFirsts | src/resource-graph.ts:286-302 | the traversal is the first occurrences in the entries followed by everything its own pages refer to |
| ResourceCrawl.Discoverer | src/resource-graph.ts:228-232 | an entry is attributed to the request, any other page to the first page handled that refers to it |
| ResourceCrawl.FilesExact | src/resource-graph.ts:261-270 | the stored files are exactly the reachable pages on allowed hosts that could be fetched, with their status, size and the page they came from |
| ResourceCrawl.FailuresExact | src/resource-graph.ts:235-240 | the failures are exactly the reachable allowed pages that could not, and the entries on foreign hosts, with their error and the page they came from |
| ResourceCrawl.ReportsOrdered | src/resource-graph.ts:303-304 | both reports are in the order of their URLs, each of them once |
| Catalog.Allocate | src/catalog.ts:146-151 | the moving counter yields the first free number, or none when all are taken |
| Catalog.SyncCatalog | src/catalog.ts:141-178 | the loop with its index and counter computes the entry-by-entry merge, sorted by number |
| Catalog.MergeTouches | src/catalog.ts:157-170 | a known game ends as the whole list makes it, a new one as the list makes a blank entry under its number |
| Catalog.MergeNumbers | src/catalog.ts:146-158 | a new game gets the first number from 32601 on that no game before it holds, at most 32720 |
| Catalog.SyncKeepsGames | src/catalog.ts:157-170 | every known game keeps its number, database and discovery record; an unlisted one is only made inactive, a listed one has the pictures of its last entry and its last title that is not empty, or the one it had, or its name |
| Catalog.SyncAddsGames | src/catalog.ts:157-170 | every new game is listed, has a number from 32601 to 32720, and is as the list makes an entry with only a number, a database of its name and the common validator |
| Catalog.SyncedIsSound | src/catalog.ts:141-178 | the result is ordered by number with no number or name twice, holds the old and the listed games, and is active exactly where listed |
| Catalog.SyncFailsIff | src/catalog.ts:146-151 | a sync fails exactly when the list names more new games than there are free numbers |
| Catalog.SyncIdempotent | src/catalog.ts:141-178 | syncing with the same list again changes nothing |

## Left out

- QuotaSafety.NoQuotaOvershoot: one run at a time; the record of a game starts afresh with each.
- ReservedSeats.SeatsStayReserved: one run at a time, from its start, in which no lease is given back as `running`.
- RequestJournal.ConfirmedAnswersAreReplayed: a permit asked for in the compact form that current workers use leaves no journal record, and an answer in full to it would replace a confirmed one.
- RequestJournal.LostRequestsStayRefused: the daemon keeps the journal by key only, in memory, and drops its oldest records beyond 20000.
- RecountedQuota.RecountingWorkersNeverOvershoot: one run at a time; a stored round is recounted under the mode it was stored with, which `SpinModes` proves of the actions the client builds, and counts taken over from Mongo are not part of the report.
- SpinModes.BuiltRoundsKeepTheirMode: numbers sent as text, and a single purchase price of zero at one provider, which offers no purchase, are not separate cases.
- Coordinator.Store.Begin: the handoff record, the registry and the outcome of the old attempt are parameters of the request; the legacy-container check is not modelled.
- Coordinator.Store.GrantClaim: the clock is read once per operation, while the program reads it again for the claim's times.
- The tables of leases and quotas, of the request gate and of the files are three record-valued fields of `Coordinator.Store` that its methods reassign; aliasing inside the program's dictionaries is not captured.
- Coordinator.Store.AppendBatch: a batch is a sequence of parsed rounds; JSON syntax errors and the single-document form, which is a batch of one, are not separate cases.
- The waiting times that `claim_backoff` returns are one reply, `Backoff`.
- The read-only and file-transfer operations `status`, `load`, `load_chunk`, `pending` and `files`, and metrics other than the number of responses.
- The daemon's threads, its snapshots of the queue and its health sampler; an overload verdict arrives as the operation `Overload`.
- A crash between writing a file and writing its index, and tools that replace a file behind the server.
- Times are whole milliseconds and amounts whole numbers; the tolerance of 1e-9 in comparing wins is dropped.
- CanonicalJson.StableExact: a number is its shortest decimal text, strings are sequences of Unicode scalar values, and key order is any strict total order, in place of the collation of the language.
- The hash function itself: two rounds are compared by the text that is hashed.
- ResourceCrawl.Crawl: extracting references and fetching are functions of the URL, so two URLs never share a local file; a local path outside the target directory, which stops the program, does not occur.
- Rounds.CaptureRuntime.PlayRound: a server is a function of the actions sent in the round; the answers that the worker and the coordinator's journal keep are what makes a repeated request give the same one.
- Rounds.ValidateCommonRound: feature classification is not part of the result.
- Rounds.CaseDoesNotMatter: only the letters A to Z have two cases.
- Rounds.RoundWin: a round without any win is `None`, where the program throws.
- Capture.CaptureRounds: sessions, the throttle, checkpoints, coverage targets and the Mongo copy are left to the `attempt` parameter, and the counts taken over from Mongo are part of the starting counts.
- Catalog.SyncCatalog: trimming of names is a parameter, dates and picture addresses are one field, and the timestamp of the result is dropped.
- The official protocol client, browser transport, login, deployment and generated code.
