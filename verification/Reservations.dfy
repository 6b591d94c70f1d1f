/**
 Reservations from the worker's side: what a report is answered with under either kind of lease, what a reservation takes,
 and that giving a lease back returns what was promised to its worker and nothing else.
 */
module Reservations {
  import opened Base
  import opened CoordinatorTypes
  import opened CoordinatorSteps
  import opened QuotaSafety
  import opened ShardSplit
  import opened ReturnedLeases
  import Capture
  import LeaseSafety
  import TurnOrder

  ghost predicate HasRecord(b: Board, slug: Slug) {
    slug in b.quotas && b.quotas[slug].frozen.Some?
  }

  /** The lease the request acts under is for purchases. */
  ghost predicate UnderPurchaseLease(s: State, r: Request) {
    UnderLease(s, r) && s.board.claims[WorkerClaim(s.board.claims, r.worker, SlugOf(r.op)).value].specialOnly
  }

  // ----- giving a lease back -----

  /**
   Giving a purchase lease back takes away the worker's own reservation on the game. Every other reservation on it, its
   counts and targets, and the records of all other games stay as they are. A normal lease leaves every record alone.
   */
  lemma ReturnFreesReservation(s: State, r: Request, other: Worker, slug: Slug)
    requires UnderLease(s, r) && r.op.Done?
    ensures var b, b' := s.board, Step(s, r).0.board;
      && Step(s, r).1 == Empty
      && (slug != r.op.slug || !UnderPurchaseLease(s, r) ==> LeaseSafety.SameAt(b.quotas, b'.quotas, slug))
      && (UnderPurchaseLease(s, r) && HasRecord(b, r.op.slug) ==>
            && HasRecord(b', r.op.slug)
            && var f, f' := b.quotas[r.op.slug].frozen.value, b'.quotas[r.op.slug].frozen.value;
               && f'.counts == f.counts && f'.targets == f.targets
               && r.worker !in f'.reservations
               && (other != r.worker ==> LeaseSafety.SameAt(f.reservations, f'.reservations, other)))
      && (UnderPurchaseLease(s, r) && !HasRecord(b, r.op.slug) ==> !HasRecord(b', r.op.slug))
  {
    hide SyncGame, Finished;
  }

  ghost predicate HoldsReservation(s: State, slug: Slug, worker: Worker) {
    HasRecord(s.board, slug) && worker in s.board.quotas[slug].frozen.value.reservations
  }

  lemma ReservationStep(s: State, r: Request, slug: Slug, worker: Worker)
    requires !r.op.Begin? && !HoldsReservation(s, slug, worker) && !(TakesReport(s, r, slug) && r.worker == worker)
    ensures !HoldsReservation(Step(s, r).0, slug, worker)
  {
    hide Step, Fresh, Known, Credit, TakesReport, ReservationOf, AllMet, Raised, UnderLease, ValidBatch;
    RecordCases(s, r, slug);
    var f := RecordOf(s.board, slug);
    if Stores(s, r, slug) && f.Some? {
      CreditOwners(f.value, r.worker, Fresh(r.op.docs, Known(s.disk, slug, s.daemon)));
    }
  }

  /** After a worker gave its purchase lease back, nothing is promised to it on that game until it reports again. */
  lemma {:induction false} ReturnedPromisesStayGone(states: seq<State>, rs: seq<Request>, slug: Slug, i: nat, j: nat)
    requires Behavior(states, rs) && i < j <= |rs|
    requires rs[i].op.Done? && rs[i].op.slug == slug && UnderPurchaseLease(states[i], rs[i])
    requires forall k {:trigger rs[k]} | i < k < |rs| && k < j ::
      !rs[k].op.Begin? && !(TakesReport(states[k], rs[k], slug) && rs[k].worker == rs[i].worker)
    ensures !HoldsReservation(states[j], slug, rs[i].worker)
    decreases j
  {
    hide Step, TakesReport, UnderPurchaseLease, HoldsReservation;
    if j == i + 1 {
      ReturnedNow(states[i], rs[i], slug);
    } else {
      ReturnedPromisesStayGone(states, rs, slug, i, j - 1);
      ReservationStep(states[j - 1], rs[j - 1], slug, rs[i].worker);
    }
  }

  lemma ReturnedNow(s: State, r: Request, slug: Slug)
    requires r.op.Done? && r.op.slug == slug && UnderPurchaseLease(s, r)
    ensures !HoldsReservation(Step(s, r).0, slug, r.worker)
  {
    hide Step;
    ReturnFreesReservation(s, r, r.worker, slug);
  }

  // ----- what a first report takes -----

  /** The workers that hold a reservation of a mode. */
  ghost function Holders(s: State, slug: Slug, mode: Mode): set<Worker> {
    if HasRecord(s.board, slug) then
      var rs := s.board.quotas[slug].frozen.value.reservations;
      set w | w in rs && mode in rs[w].reserved
    else {}
  }

  /** What is missing of a mode that nobody who holds a reservation owes, once a report is taken in. */
  ghost function Unpromised(s: State, r: Request, slug: Slug, mode: Mode): nat
    requires r.op.ReserveModes?
  {
    Max(0, Lacking(s, r, slug, mode) as int - Promised(s.board, slug, mode))
  }

  /**
   The first report of a worker takes, of every purchase mode, its share of what is missing and owed by no current holder:
   the smallest number that, taken by each of the shards without a reservation, covers it.
   */
  lemma FirstReportTakes(s: State, r: Request, slug: Slug, mode: Mode)
    requires TakesReport(s, r, slug) && !HoldsReservation(s, slug, r.worker) && mode != 0 && mode in r.op.targets
    ensures var share := ReservedBy(Step(s, r).0, slug, r.worker, mode);
      var open, shards: int := Unpromised(s, r, slug, mode), Max(1, s.topology.maxShards - |Holders(s, slug, mode)|);
      share * shards >= open && (share > 0 ==> (share - 1) * shards < open)
  {
    hide Step, UnderLease, Reserved, Outstanding;
    assert !r.op.Begin?;
    RecordCases(s, r, slug);
    var q := Get(s.board.quotas, slug, NO_QUOTA);
    var f := Reported(q, r.op.counts, r.op.targets);
    NothingOwed(mode);
    assert f.reservations - {r.worker} == f.reservations;
    ReservedShare(q, r.worker, r.op.counts, r.op.targets, s.topology.maxShards, mode);
    var shards := Max(1, s.topology.maxShards - |Holders(s, slug, mode)|);
    assert Holders(s, slug, mode) == Owners(f.reservations, mode);
    CeilDivIs(Unpromised(s, r, slug, mode), shards);
  }

  lemma NothingOwed(mode: Mode)
    ensures Outstanding(map[], mode) == 0
  {
  }

  lemma ReservedShare(q: Quota, worker: Worker, counts: map<Mode, int>, targets: map<Mode, int>, maxShards: pos, mode: Mode)
    requires mode != 0 && mode in targets && ValidReport(counts, targets)
    requires q.frozen.Some? ==> q.frozen.value.targets == Clamped(targets)
    requires worker !in Reported(q, counts, targets).reservations
    ensures var f := Reported(q, counts, targets); var frozen := Reserved(q, worker, counts, targets, maxShards).frozen;
      && frozen.Some? && worker in frozen.value.reservations && mode in f.targets
      && Get(frozen.value.reservations[worker].reserved, mode, 0) == Share(f, worker, mode, maxShards)
  {
    hide Share, AllMet;
  }

  lemma CeilDivIs(a: nat, b: pos)
    ensures CeilDiv(a, b) * b >= a && (CeilDiv(a, b) > 0 ==> (CeilDiv(a, b) - 1) * b < a)
  {
    var q, m := (a + b - 1) / b, (a + b - 1) % b;
    assert a + b - 1 == q * b + m;
    assert (q - 1) * b == q * b - b;
  }

  // ----- what a report is answered with -----

  /** Under a normal lease the targets asked for are the answer, and nothing is recorded. */
  lemma NormalReport(s: State, r: Request)
    requires r.op.ReserveModes? && UnderLease(s, r) && !UnderPurchaseLease(s, r)
    ensures Step(s, r) == (s, Targets(r.op.targets))
  {
  }

  /** A report is refused, and changes nothing, when it is malformed or names other targets than the game was given. */
  lemma RefusedReport(s: State, r: Request)
    requires r.op.ReserveModes? && UnderPurchaseLease(s, r)
    ensures Step(s, r).1 == Refused <==>
      || Malformed(r.op.counts, r.op.targets)
      || (HasRecord(s.board, r.op.slug)
          && !SameTargets(s.board.quotas[r.op.slug].frozen.value.targets, r.op.targets))
    ensures Step(s, r).1 == Refused ==> Step(s, r).0 == s
  {
    hide Reserved, LocalTargets, ValidReport, Malformed, SameTargets, Clamped;
    MalformedIff(r.op.counts, r.op.targets);
    if HasRecord(s.board, r.op.slug) { SameTargetsIff(s.board.quotas[r.op.slug].frozen.value.targets, r.op.targets); }
  }

  /** No targets, a mode with a negative number, or a count of a mode without a target. */
  ghost predicate Malformed(counts: map<Mode, int>, targets: map<Mode, int>) {
    targets == map[] || (exists m | m in targets :: m < 0) || exists m | m in counts :: m !in targets
  }

  lemma MalformedIff(counts: map<Mode, int>, targets: map<Mode, int>)
    ensures Malformed(counts, targets) <==> !ValidReport(counts, targets)
  {
    if !Malformed(counts, targets) {
      forall m | m in counts.Keys ensures m in targets.Keys {
        assert m in counts;
      }
    }
  }

  /** The same modes with the same targets, where a negative one counts as none. */
  ghost predicate SameTargets(given: map<Mode, nat>, asked: map<Mode, int>) {
    given.Keys == asked.Keys && forall m | m in asked :: given[m] == if asked[m] < 0 then 0 else asked[m]
  }

  lemma SameTargetsIff(given: map<Mode, nat>, asked: map<Mode, int>)
    ensures SameTargets(given, asked) <==> given == Clamped(asked)
  {
    var clamped := Clamped(asked);
    assert clamped.Keys == asked.Keys;
    if SameTargets(given, asked) {
      assert forall m | m in given :: given[m] == clamped[m];
      assert given == clamped;
    }
  }

  /**
   Under a purchase lease the answer is, mode by mode, the worker's own count plus what it holds of the mode: what it just
   reserved, or what it has held since an earlier report, which a repeated report does not change.
   */
  lemma PurchaseReport(s: State, r: Request, slug: Slug, mode: Mode)
    requires TakesReport(s, r, slug) && mode in r.op.targets
    ensures var (s', reply) := Step(s, r);
      && reply.Targets? && reply.targets.Keys == r.op.targets.Keys
      && reply.targets[mode] == Max(0, Get(r.op.counts, mode, 0)) + ReservedBy(s', slug, r.worker, mode)
      && (HoldsReservation(s, slug, r.worker) ==>
            HoldsReservation(s', slug, r.worker)
            && s'.board.quotas[slug].frozen.value.reservations[r.worker]
               == s.board.quotas[slug].frozen.value.reservations[r.worker])
  {
    hide Share, AllMet, Raised;
  }

  /**
   The client's loop behind a normal lease: run with the targets it is told, it never ends complete short of a target it
   asked for, ends out of rounds only with one open, and takes no mode past its target and what it started with.
   */
  method CollectNormally(ghost s: State, ghost r: Request, slug: Slug, modes: seq<Mode>, told: map<Mode, int>,
                         start: map<Mode, int>, known: set<Hash>, normal: int, special: int, maxNewRounds: nat,
                         maxRetries: nat, attempt: nat -> Capture.Attempt)
    returns (counts: map<Mode, int>, collected: seq<Doc>, ending: Capture.Ending)
    requires r.op.ReserveModes? && UnderLease(s, r) && !UnderPurchaseLease(s, r) && Step(s, r).1 == Targets(told)
    requires forall m | m in modes :: m in r.op.targets
    ensures Capture.Gathered(slug, modes, start, known, None, counts, collected)
    ensures ending == Capture.Complete ==> forall m | m in modes :: r.op.targets[m] <= Get(counts, m, 0)
    ensures ending == Capture.OutOfRounds ==> exists m | m in modes :: Get(counts, m, 0) < r.op.targets[m]
    ensures forall m | m in r.op.targets :: Get(counts, m, 0) <= Max(r.op.targets[m], Get(start, m, 0))
  {
    hide Step, UnderPurchaseLease, UnderLease, Capture.Gathered, Capture.Surplus;
    NormalReport(s, r);
    var plays;
    counts, collected, plays, ending := Capture.CaptureRounds(slug, modes, Capture.Goal(told, normal, special), start, known,
                                                              None, maxNewRounds, maxRetries, attempt);
    forall m | m in r.op.targets ensures Get(counts, m, 0) <= Max(r.op.targets[m], Get(start, m, 0)) {
      Capture.NoSurplus(Capture.Goal(told, normal, special), start, known, maxNewRounds, attempt, m);
    }
  }

  // ----- games that no node can play -----

  /** The lease is given back as unavailable under a purchase lease. */
  ghost predicate GivesUp(s: State, r: Request, slug: Slug) {
    r.op.Done? && r.op.slug == slug && r.op.status == Unavailable && UnderPurchaseLease(s, r)
  }

  ghost function LeaseNode(s: State, r: Request): Node
    requires UnderLease(s, r)
  {
    var c := s.board.claims[WorkerClaim(s.board.claims, r.worker, SlugOf(r.op)).value];
    if c.node.Some? then c.node.value else r.node
  }

  /** The nodes whose leases on a game were given back as unavailable since the run began. */
  ghost function GaveUpNodes(states: seq<State>, rs: seq<Request>, slug: Slug, n: nat): set<Node>
    requires Behavior(states, rs) && n <= |rs|
    decreases n
  {
    if n == 0 || TurnOrder.Starts(states[n - 1], rs[n - 1]) then {}
    else
      GaveUpNodes(states, rs, slug, n - 1)
      + if GivesUp(states[n - 1], rs[n - 1], slug) then {LeaseNode(states[n - 1], rs[n - 1])} else {}
  }

  /** A game that was not accepted is unavailable exactly when as many different nodes gave it up as it has shards. */
  ghost predicate UnavailableIff(b: Board, slug: Slug, nodes: set<Node>, maxShards: pos) {
    var q := Get(b.quotas, slug, NO_QUOTA);
    !q.accepted ==> q.unavailableNodes == nodes && (q.unavailable <==> |nodes| >= maxShards)
  }

  lemma ClaimKeepsAvailability(s: State, r: Request, accepted: set<Slug>, slug: Slug, nodes: set<Node>)
    requires UnavailableIff(s.board, slug, nodes, s.topology.maxShards)
    ensures UnavailableIff(ClaimStep(s, r, accepted).0.board, slug, nodes, s.topology.maxShards)
  {
    PickEases(s.board, s.modeGames, accepted, r.now, slug);
    PickNormalQuotas(PickPrimary(s.board, s.modeGames, accepted, r.now).0, s.games, s.modeGames, accepted, r.now);
    ClaimQuotas(s, r, accepted);
    hide ClaimStep, PickPrimary;
  }

  lemma LeasedKeepsAvailability(s: State, r: Request, key: ClaimKey, slug: Slug, nodes: set<Node>)
    requires UnderLease(s, r) && WorkerClaim(s.board.claims, r.worker, SlugOf(r.op)) == Some(key)
    requires UnavailableIff(s.board, slug, nodes, s.topology.maxShards)
    ensures UnavailableIff(LeasedStep(s, r, key).0.board, slug,
                           nodes + (if GivesUp(s, r, slug) then {LeaseNode(s, r)} else {}), s.topology.maxShards)
  {
    hide ReserveStep, AppendStep, DoneStep, ResponseStep, PermitStep, AckStep, UnavailableIff, GivesUp, LeaseNode;
    assert nodes + {} == nodes;
    SameAvailability(s.board, s.board, slug, nodes, s.topology.maxShards);
    GivesUpUnderLease(s, r, slug);
    match r.op
    case ReserveModes(_, counts, targets) => ReserveKeepsAvailability(s, r, key, counts, targets, slug, nodes);
    case Append(sent, docs) => AppendKeepsAvailability(s, r, sent, docs, slug, nodes);
    case Done(_, status) => DoneAvailability(s, r, key, status, slug, nodes);
    case Response(_, _, _, _, _) =>
      ReleaseKeepsAvailability(s.board, EgressOf(s, r), slug, nodes, s.topology.maxShards);
      ResponseBoards(s, r);
    case Permits(sent, requestKey, full) => PermitBoard(s, r, sent, requestKey, full);
    case Ack(sent, hash) => AckBoard(s, sent, hash);
    case _ =>
  }

  lemma SameAvailability(b: Board, b': Board, slug: Slug, nodes: set<Node>, maxShards: pos)
    requires UnavailableIff(b, slug, nodes, maxShards) && b'.quotas == b.quotas
    ensures UnavailableIff(b', slug, nodes, maxShards)
  {
  }

  lemma ResponseBoards(s: State, r: Request)
    requires r.op.Response?
    ensures var b' := ResponseStep(s, r, r.op.slug, r.op.key, r.op.outcome, r.op.usable, r.op.retryAfter).0.board;
      b' == s.board || b' == ReleaseNode(s.board, EgressOf(s, r))
  {
    hide Throttled, ReleaseNode;
  }

  lemma ReserveKeepsAvailability(s: State, r: Request, key: ClaimKey, counts: map<Mode, int>, targets: map<Mode, int>,
                                 slug: Slug, nodes: set<Node>)
    requires key in s.board.claims && UnavailableIff(s.board, slug, nodes, s.topology.maxShards)
    ensures UnavailableIff(ReserveStep(s, r, key, counts, targets).0.board, slug, nodes, s.topology.maxShards)
  {
    hide ReservationOf, LocalTargets, ValidReport, AllMet, Raised;
  }

  lemma AppendKeepsAvailability(s: State, r: Request, sent: Slug, docs: seq<Doc>, slug: Slug, nodes: set<Node>)
    requires UnavailableIff(s.board, slug, nodes, s.topology.maxShards)
    ensures UnavailableIff(AppendStep(s, r, sent, docs).0.board, slug, nodes, s.topology.maxShards)
  {
    hide Known, StoreRounds, Touch, Commit, ValidBatch, Credit, AllMet, Fresh;
  }

  lemma DoneAvailability(s: State, r: Request, key: ClaimKey, status: Status, slug: Slug, nodes: set<Node>)
    requires UnderLease(s, r) && WorkerClaim(s.board.claims, r.worker, SlugOf(r.op)) == Some(key)
    requires r.op == Done(key.slug, status) && UnavailableIff(s.board, slug, nodes, s.topology.maxShards)
    ensures UnavailableIff(DoneStep(s, r, key, status).0.board, slug,
                           nodes + (if GivesUp(s, r, slug) then {LeaseNode(s, r)} else {}), s.topology.maxShards)
  {
    hide AfterSpecial, Finished, SyncGame;
    assert nodes + {} == nodes;
    SpecialAvailability(Get(s.board.quotas, key.slug, NO_QUOTA), s.board.claims[key], r, status, s.topology.maxShards);
  }

  lemma SpecialAvailability(q: Quota, c: Claim, r: Request, status: Status, maxShards: pos)
    ensures var q' := AfterSpecial(q, c, r, status, maxShards);
      var nodes := q.unavailableNodes + {if c.node.Some? then c.node.value else r.node};
      && q'.accepted == q.accepted
      && q'.unavailableNodes == (if status == Unavailable then nodes else q.unavailableNodes)
      && q'.unavailable == if status == Unavailable then |nodes| >= maxShards else q.unavailable
  {
  }

  lemma ReleaseKeepsAvailability(b: Board, node: Node, slug: Slug, nodes: set<Node>, maxShards: pos)
    requires UnavailableIff(b, slug, nodes, maxShards)
    ensures UnavailableIff(ReleaseNode(b, node), slug, nodes, maxShards)
  {
    hide NodeOf, Evicted, Evict;
  }

  lemma AvailabilityStep(s: State, r: Request, slug: Slug, nodes: set<Node>)
    requires UnavailableIff(s.board, slug, nodes, s.topology.maxShards) && !TurnOrder.Starts(s, r)
    ensures Step(s, r).0.topology.maxShards == s.topology.maxShards
    ensures UnavailableIff(Step(s, r).0.board, slug,
                           nodes + (if GivesUp(s, r, slug) then {LeaseNode(s, r)} else {}), s.topology.maxShards)
  {
    hide ClaimStep, LeasedStep, ChosenGames;
    assert nodes + {} == nodes;
    var key := WorkerClaim(s.board.claims, r.worker, SlugOf(r.op));
    if r.op.Claims? {
      ClaimKeepsAvailability(s, r, r.op.accepted, slug, nodes);
      ClaimTopology(s, r, r.op.accepted);
    } else if UnderLease(s, r) {
      LeasedKeepsAvailability(s, r, key.value, slug, nodes);
      LeasedTopology(s, r, key.value);
    }
  }

  lemma ClaimTopology(s: State, r: Request, accepted: set<Slug>)
    ensures ClaimStep(s, r, accepted).0.topology == s.topology
  {
    hide PickPrimary, PickSecondary, PickNormal, CountUnresolved, NodeTaken, SpreadsFirst, Touch, NextGame, RunningKeys,
      NormalRunning, RunningOn;
  }

  lemma LeasedTopology(s: State, r: Request, key: ClaimKey)
    requires key in s.board.claims
    ensures LeasedStep(s, r, key).0.topology == s.topology
  {
    hide ReleaseNode, AfterSpecial, Reserved, LocalTargets, ValidReport, BackoffMs, Dequeue, Enqueue, Finished, SyncGame,
      Fresh, ValidBatch, Window, Known, StoreRounds, Touch, Commit, Throttled;
  }

  lemma StartedAvailable(s: State, r: Request, slug: Slug)
    requires TurnOrder.Starts(s, r)
    ensures UnavailableIff(Step(s, r).0.board, slug, {}, Step(s, r).0.topology.maxShards)
  {
    hide ChosenGames;
  }

  lemma {:induction false} AvailabilityAt(states: seq<State>, rs: seq<Request>, slug: Slug, n: nat)
    requires Behavior(states, rs) && states[0].board.quotas == map[] && n <= |rs|
    ensures UnavailableIff(states[n].board, slug, GaveUpNodes(states, rs, slug, n), states[n].topology.maxShards)
    decreases n
  {
    hide Step, GivesUp, LeaseNode, TurnOrder.Starts, UnavailableIff;
    if n == 0 {
      NeverAsked(states[0].board, slug, states[0].topology.maxShards);
    } else {
      AvailabilityAt(states, rs, slug, n - 1);
      if TurnOrder.Starts(states[n - 1], rs[n - 1]) {
        StartedAvailable(states[n - 1], rs[n - 1], slug);
      } else {
        GivesUpUnderLease(states[n - 1], rs[n - 1], slug);
        AvailabilityStep(states[n - 1], rs[n - 1], slug, GaveUpNodes(states, rs, slug, n - 1));
      }
    }
  }

  lemma NeverAsked(b: Board, slug: Slug, maxShards: pos)
    requires b.quotas == map[]
    ensures UnavailableIff(b, slug, {}, maxShards)
  {
  }

  /** In every state of any history. */
  lemma UnavailableExactly(states: seq<State>, rs: seq<Request>, slug: Slug, n: nat)
    requires Behavior(states, rs) && states[0].board.quotas == map[] && n <= |rs|
    ensures var q := Get(states[n].board.quotas, slug, NO_QUOTA); var nodes := GaveUpNodes(states, rs, slug, n);
      !q.accepted ==> q.unavailableNodes == nodes && (q.unavailable <==> |nodes| >= states[n].topology.maxShards)
  {
    hide Step, GaveUpNodes;
    AvailabilityAt(states, rs, slug, n);
  }

  lemma GivesUpUnderLease(s: State, r: Request, slug: Slug)
    ensures GivesUp(s, r, slug) ==> UnderLease(s, r) && r.op.Done?
  {
    hide UnderLease;
  }
}
