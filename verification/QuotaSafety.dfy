/**
 Mode quotas: when the stored rounds of a purchase mode plus everything workers have reserved and not yet delivered stay
 within the target or the largest report, which is exactly when every report fits beside what is promised, and how two
 shards split an open gap.
 */
module QuotaSafety {
  import opened Base
  import opened CoordinatorTypes
  import opened CoordinatorSteps

  /** Rounds of a mode that are stored or promised. */
  ghost function Committed(f: Frozen, mode: Mode): nat {
    Get(f.counts, mode, 0) + Outstanding(f.reservations, mode)
  }

  ghost function OwedBy(f: Frozen, worker: Worker, mode: Mode): nat {
    if worker in f.reservations then Owed(f.reservations[worker], mode) else 0
  }

  function CountMode(docs: seq<Doc>, mode: Mode): nat {
    if docs == [] then 0 else (if docs[0].buy == mode then 1 else 0) + CountMode(docs[1..], mode)
  }

  lemma {:induction false} CountModeAppend(a: seq<Doc>, b: seq<Doc>, mode: Mode)
    ensures CountMode(a + b, mode) == CountMode(a, mode) + CountMode(b, mode)
    decreases a
  {
    if a == [] {
      assert a + b == b;
    } else {
      assert (a + b)[1..] == a[1..] + b;
      CountModeAppend(a[1..], b, mode);
    }
  }

  lemma {:induction false} CountModeNone(docs: seq<Doc>, mode: Mode)
    requires forall d | d in docs :: d.buy != mode
    ensures CountMode(docs, mode) == 0
    decreases docs
  {
    if docs != [] { CountModeNone(docs[1..], mode); }
  }

  // ----- sums over reservations -----

  /** The sum over workers does not depend on the order in which they are visited. */
  lemma {:induction false} OutstandingRemove(rs: map<Worker, Reservation>, worker: Worker, mode: Mode)
    requires worker in rs
    ensures Outstanding(rs, mode) == Owed(rs[worker], mode) + Outstanding(rs - {worker}, mode)
    decreases |rs|
  {
    var w :| w in rs && Outstanding(rs, mode) == Owed(rs[w], mode) + Outstanding(rs - {w}, mode);
    if w != worker {
      OutstandingRemove(rs - {w}, worker, mode);
      OutstandingRemove(rs - {worker}, w, mode);
      assert rs - {w} - {worker} == rs - {worker} - {w};
    }
  }

  lemma OutstandingPut(rs: map<Worker, Reservation>, worker: Worker, r: Reservation, mode: Mode)
    ensures Outstanding(rs[worker := r], mode) == Owed(r, mode) + Outstanding(rs - {worker}, mode)
  {
    OutstandingRemove(rs[worker := r], worker, mode);
    assert rs[worker := r] - {worker} == rs - {worker};
  }

  lemma OutstandingSplit(rs: map<Worker, Reservation>, worker: Worker, mode: Mode)
    ensures Outstanding(rs, mode)
         == (if worker in rs then Owed(rs[worker], mode) else 0) + Outstanding(rs - {worker}, mode)
  {
    if worker in rs { OutstandingRemove(rs, worker, mode); } else { assert rs - {worker} == rs; }
  }

  lemma {:induction false} OutstandingDrop(rs: map<Worker, Reservation>, workers: set<Worker>, mode: Mode)
    ensures Outstanding(rs - workers, mode) <= Outstanding(rs, mode)
    decreases |workers|
  {
    if w :| w in workers {
      OutstandingDrop(rs, workers - {w}, mode);
      OutstandingSplit(rs - (workers - {w}), w, mode);
      assert rs - (workers - {w}) - {w} == rs - workers;
    } else {
      assert rs - workers == rs;
    }
  }

  // ----- storing rounds -----

  /** A stored round moves from promised to stored; only a round beyond the reservation adds to the total. */
  lemma CreditOneCommits(f: Frozen, worker: Worker, buy: Mode, mode: Mode)
    ensures var f' := CreditOne(f, worker, buy);
      && Committed(f', mode) == Committed(f, mode) + (if buy == mode && OwedBy(f, worker, mode) == 0 then 1 else 0)
      && OwedBy(f', worker, mode)
         == (if buy == mode then Max(0, OwedBy(f, worker, mode) as int - 1) else OwedBy(f, worker, mode))
  {
    if worker in f.reservations {
      var f' := CreditOne(f, worker, buy);
      OutstandingRemove(f.reservations, worker, mode);
      OutstandingPut(f.reservations, worker, f'.reservations[worker], mode);
    }
  }

  /** Conservation: appends within the reservation leave stored plus promised rounds exactly as they were. */
  lemma {:induction false} CreditConserves(f: Frozen, worker: Worker, docs: seq<Doc>, mode: Mode)
    requires CountMode(docs, mode) <= OwedBy(f, worker, mode)
    ensures Committed(Credit(f, worker, docs), mode) == Committed(f, mode)
    ensures Credit(f, worker, docs).targets == f.targets
    decreases docs
  {
    if docs != [] {
      CreditOneCommits(f, worker, docs[0].buy, mode);
      CreditConserves(CreditOne(f, worker, docs[0].buy), worker, docs[1..], mode);
    }
  }

  // ----- reserving -----

  lemma CeilDivBounds(a: nat, b: pos)
    ensures CeilDiv(a, b) <= a
    ensures b == 1 ==> CeilDiv(a, b) == a
  {
    var q, m := (a + b - 1) / b, (a + b - 1) % b;
    assert a + b - 1 == q * b + m;
    MulMonotone(1, b, a);
    assert (a + 1) * b == a * b + b && b * a == a * b;
    if q > a { MulMonotone(a + 1, q, b); }
  }

  lemma ReserveCommits(q: Quota, worker: Worker, counts: map<Mode, int>, targets: map<Mode, int>, maxShards: pos,
                       mode: Mode)
    requires mode != 0 && ValidReport(counts, targets)
    requires q.frozen.Some? ==> q.frozen.value.targets == Clamped(targets)
    ensures var f := Reported(q, counts, targets);
      var f' := Reserved(q, worker, counts, targets, maxShards).frozen.value;
      && f'.targets == f.targets == Clamped(targets)
      && f'.counts == f.counts
      && Committed(f, mode) <= Committed(f', mode)
      && (worker in f.reservations ==> Committed(f', mode) == Committed(f, mode))
      && Committed(f', mode) <= Max(Get(f.targets, mode, 0), Committed(f, mode))
  {
    var f := Reported(q, counts, targets);
    var mine := ReservationOf(f, worker, maxShards);
    OutstandingPut(f.reservations, worker, mine, mode);
    OutstandingSplit(f.reservations, worker, mode);
    if worker !in f.reservations && mode in f.targets {
      var others := f.reservations - {worker};
      var open := Max(0, f.targets[mode] - Get(f.counts, mode, 0) - Outstanding(others, mode));
      CeilDivBounds(open, Max(1, maxShards - |Owners(others, mode)|));
    }
  }

  /**
   A reservation keeps stored plus promised rounds within the target or the largest report, exactly when the reported
   count plus what is already promised fits there.
   */
  lemma ReserveWithinBoundIff(q: Quota, worker: Worker, counts: map<Mode, int>, targets: map<Mode, int>,
                              maxShards: pos, mode: Mode, reported: nat)
    requires mode != 0 && ValidReport(counts, targets) && q.frozen.Some?
    requires q.frozen.value.targets == Clamped(targets)
    requires Get(Clamped(counts), mode, 0) <= reported
    ensures var f := q.frozen.value;
      var f' := Reserved(q, worker, counts, targets, maxShards).frozen.value;
      var bound := Max(Get(f.targets, mode, 0), reported);
      Committed(f', mode) <= bound
      <==> Max(Get(f.counts, mode, 0), Get(Clamped(counts), mode, 0)) + Outstanding(f.reservations, mode) <= bound
  {
    ReserveCommits(q, worker, counts, targets, maxShards, mode);
  }

  /** One worker holds five of ten open rounds when a second one reports eight: thirteen are stored or promised. */
  lemma StaleReportOvershoots()
    ensures var before := Frozen(map[1 := 0], map[1 := 10], map["1.0" := Reservation(map[1 := 5], map[1 := 0])]);
      var q := Quota(Some(before), false, false, {}, false);
      var after := Reserved(q, "2.0", map[1 := 8], map[1 := 10], 2).frozen.value;
      Committed(before, 1) == 5 && Committed(after, 1) == 13
  {
    var mine := Reservation(map[1 := 5], map[1 := 0]);
    var before := Frozen(map[1 := 0], map[1 := 10], map["1.0" := mine]);
    var q := Quota(Some(before), false, false, {}, false);
    OutstandingRemove(before.reservations, "1.0", 1);
    assert before.reservations - {"1.0"} == map[];
    assert Clamped(map[1 := 10]) == map[1 := 10];
    assert Reported(q, map[1 := 8], map[1 := 10]).counts == map[1 := 8];
    ReserveCommits(q, "2.0", map[1 := 8], map[1 := 10], 2, 1);
    assert before.reservations - {"2.0"} == before.reservations;
  }

  // ----- everything a request can do to the record of a game -----

  /** A reservation that is taken in: under a purchase lease, well formed, and for the targets of the game. */
  ghost predicate TakesReport(s: State, r: Request, slug: Slug) {
    && r.op.ReserveModes? && r.op.slug == slug && UnderLease(s, r)
    && var key := WorkerClaim(s.board.claims, r.worker, slug).value;
       s.board.claims[key].specialOnly && ValidReport(r.op.counts, r.op.targets)
       && (slug in s.board.quotas && s.board.quotas[slug].frozen.Some? ==>
             s.board.quotas[slug].frozen.value.targets == Clamped(r.op.targets))
  }

  function RecordOf(b: Board, slug: Slug): Option<Frozen> {
    if slug in b.quotas then b.quotas[slug].frozen else None
  }

  function Without(f: Frozen, workers: set<Worker>): Frozen {
    f.(reservations := f.reservations - workers)
  }

  /** A batch that is stored under a lease. */
  ghost predicate Stores(s: State, r: Request, slug: Slug) {
    r.op.Append? && r.op.slug == slug && UnderLease(s, r) && ValidBatch(slug, r.op.docs)
  }

  /** A recorded 429 with which an egress reaches the limit of the breaker. */
  ghost predicate Trips(s: State, r: Request) {
    && r.op.Response? && Step(s, r).1.Recorded? && StatusOf(r.op.outcome) == 429
    && |Get(Step(s, r).0.gate.nodeThrottle, EgressOf(s, r), [])| >= s.topology.throttleLimit
  }

  function HolderOf(c: Claim): Worker {
    if c.worker.Some? then c.worker.value else ""
  }

  /**
   The workers that lose their reservation on a game: the one that gives its purchase lease back, or those whose running
   lease on it a tripped breaker takes away.
   */
  ghost function Loses(s: State, r: Request, slug: Slug): set<Worker> {
    if r.op.Done? then
      if r.op.slug == slug && UnderLease(s, r)
         && s.board.claims[WorkerClaim(s.board.claims, r.worker, slug).value].specialOnly then {r.worker}
      else {}
    else if Trips(s, r) then
      set k | k in s.board.claims && k.slug == slug && s.board.claims[k].status == Running
              && NodeOf(HolderOf(s.board.claims[k])) == EgressOf(s, r) :: HolderOf(s.board.claims[k])
    else {}
  }

  /** The record loses exactly those reservations, or is dropped as its game is accepted. */
  ghost predicate Eases(b: Board, b': Board, slug: Slug, loses: set<Worker>, mayAccept: bool) {
    || RecordOf(b', slug) == (if RecordOf(b, slug).None? then None else Some(Without(RecordOf(b, slug).value, loses)))
    || (mayAccept && slug in b'.quotas && b'.quotas[slug] == ACCEPTED_QUOTA)
  }

  ghost predicate MayAccept(s: State, r: Request, slug: Slug) {
    r.op.Claims? && slug in r.op.accepted && slug in s.modeGames
  }

  /**
   Everything a request can do to the record of a game: take a report in, credit a stored batch, drop the reservations of
   those who lost their lease, forget it as the game is accepted, or nothing.
   */
  lemma RecordCases(s: State, r: Request, slug: Slug)
    requires !r.op.Begin?
    ensures var b, b' := s.board, Step(s, r).0.board;
      if TakesReport(s, r, slug) then
        RecordOf(b', slug)
        == Reserved(Get(b.quotas, slug, NO_QUOTA), r.worker, r.op.counts, r.op.targets, s.topology.maxShards).frozen
      else if Stores(s, r, slug) && RecordOf(b, slug).Some? then
        RecordOf(b', slug)
        == Some(Credit(RecordOf(b, slug).value, r.worker, Fresh(r.op.docs, Known(s.disk, slug, s.daemon))))
      else Eases(b, b', slug, Loses(s, r, slug), MayAccept(s, r, slug))
  {
    hide ClaimStep, ReserveStep, AppendStep, DoneStep, ResponseStep, PermitStep, AckStep, ValidBatch, ValidReport, Eases,
      Trips;
    EasesSame(s.board, slug);
    var key := WorkerClaim(s.board.claims, r.worker, SlugOf(r.op));
    if r.op.Claims? {
      ClaimEases(s, r, r.op.accepted, slug);
    } else if UnderLease(s, r) {
      if r.op.ReserveModes? { ReserveRecord(s, r, key.value, slug); }
      else if r.op.Append? { AppendRecord(s, r, r.op.slug, r.op.docs, slug); }
      else if r.op.Response? { ResponseEases(s, r, slug); }
      else { LeasedEases(s, r, key.value, slug); }
    }
    NoTrip(s, r);
  }

  lemma NoTrip(s: State, r: Request)
    ensures Trips(s, r) ==> r.op.Response? && UnderLease(s, r)
  {
    hide ResponseStep;
  }

  lemma EasesSame(b: Board, slug: Slug)
    ensures forall b': Board, mayAccept: bool | RecordOf(b', slug) == RecordOf(b, slug) :: Eases(b, b', slug, {}, mayAccept)
  {
    if RecordOf(b, slug).Some? {
      assert RecordOf(b, slug).value.reservations - {} == RecordOf(b, slug).value.reservations;
    }
  }

  lemma {:induction false} PickEases(b: Board, slugs: seq<Slug>, accepted: set<Slug>, now: int, slug: Slug)
    ensures var quotas := PickPrimary(b, slugs, accepted, now).0.quotas;
      || (slug in slugs && slug in accepted && slug in quotas && quotas[slug] == ACCEPTED_QUOTA)
      || ((slug in quotas <==> slug in b.quotas) && (slug in quotas ==> quotas[slug] == b.quotas[slug]))
    decreases slugs
  {
    if slugs != [] {
      PickEases(b, slugs[1..], accepted, now, slug);
      PickEases(AcceptSpecial(b, slugs[0]), slugs[1..], accepted, now, slug);
    }
  }

  lemma {:induction false} PickNormalQuotas(b: Board, slugs: seq<Slug>, modeGames: seq<Slug>, accepted: set<Slug>, now: int)
    ensures PickNormal(b, slugs, modeGames, accepted, now).0.quotas == b.quotas
    decreases slugs
  {
    if slugs != [] {
      PickNormalQuotas(b, slugs[1..], modeGames, accepted, now);
      PickNormalQuotas(AcceptNormal(b, slugs[0]), slugs[1..], modeGames, accepted, now);
    }
  }

  lemma ClaimEases(s: State, r: Request, accepted: set<Slug>, slug: Slug)
    ensures Eases(s.board, ClaimStep(s, r, accepted).0.board, slug, {}, slug in accepted && slug in s.modeGames)
  {
    EasesSame(s.board, slug);
    PickEases(s.board, s.modeGames, accepted, r.now, slug);
    PickNormalQuotas(PickPrimary(s.board, s.modeGames, accepted, r.now).0, s.games, s.modeGames, accepted, r.now);
    ClaimQuotas(s, r, accepted);
    hide ClaimStep, PickPrimary;
  }

  lemma ClaimQuotas(s: State, r: Request, accepted: set<Slug>)
    ensures var b := PickPrimary(s.board, s.modeGames, accepted, r.now).0;
      var quotas := ClaimStep(s, r, accepted).0.board.quotas;
      quotas == s.board.quotas || quotas == b.quotas
      || quotas == PickNormal(b, s.games, s.modeGames, accepted, r.now).0.quotas
  {
    hide PickPrimary, PickNormal, PickSecondary, NodeTaken, SpreadsFirst, NextGame, Touch, CountUnresolved, RunningKeys,
      NormalRunning, RunningOn;
  }

  lemma ReserveRecord(s: State, r: Request, key: ClaimKey, slug: Slug)
    requires r.op.ReserveModes? && UnderLease(s, r) && WorkerClaim(s.board.claims, r.worker, r.op.slug) == Some(key)
    ensures var b' := ReserveStep(s, r, key, r.op.counts, r.op.targets).0.board;
      if TakesReport(s, r, slug) then
        RecordOf(b', slug)
        == Reserved(Get(s.board.quotas, slug, NO_QUOTA), r.worker, r.op.counts, r.op.targets, s.topology.maxShards).frozen
      else RecordOf(b', slug) == RecordOf(s.board, slug)
  {
    hide Reserved, LocalTargets, ValidReport;
  }

  lemma AppendRecord(s: State, r: Request, sent: Slug, docs: seq<Doc>, slug: Slug)
    ensures var b' := AppendStep(s, r, sent, docs).0.board;
      RecordOf(b', slug)
      == if sent == slug && ValidBatch(slug, docs) && RecordOf(s.board, slug).Some? then
           Some(Credit(RecordOf(s.board, slug).value, r.worker, Fresh(docs, Known(s.disk, slug, s.daemon))))
         else RecordOf(s.board, slug)
  {
    hide Known, Touch, StoreRounds, Commit, Fresh, AllMet, ValidBatch;
    var added := Fresh(docs, Known(s.disk, slug, s.daemon));
    if RecordOf(s.board, slug).Some? {
      assert Credit(RecordOf(s.board, slug).value, r.worker, []) == RecordOf(s.board, slug).value;
    }
  }

  lemma LeasedEases(s: State, r: Request, key: ClaimKey, slug: Slug)
    requires UnderLease(s, r) && WorkerClaim(s.board.claims, r.worker, SlugOf(r.op)) == Some(key)
    requires !r.op.ReserveModes? && !r.op.Append? && !r.op.Response?
    ensures Eases(s.board, LeasedStep(s, r, key).0.board, slug, Loses(s, r, slug), false)
  {
    hide PermitStep, AckStep, Finished, SyncGame, Trips;
    EasesSame(s.board, slug);
    NoTrip(s, r);
    if r.op.Permits? { PermitBoard(s, r, r.op.slug, r.op.key, r.op.full); }
    if r.op.Ack? { AckBoard(s, r.op.slug, r.op.hash); }
  }

  lemma ResponseEases(s: State, r: Request, slug: Slug)
    requires r.op.Response? && UnderLease(s, r)
    ensures Eases(s.board, Step(s, r).0.board, slug, Loses(s, r, slug), false)
  {
    hide Step, ReleaseNode, Eases;
    EasesSame(s.board, slug);
    TripBoard(s, r);
    if Trips(s, r) { ReleaseEases(s, r, slug); }
  }

  lemma TripBoard(s: State, r: Request)
    requires r.op.Response? && UnderLease(s, r)
    ensures Step(s, r).0.board == if Trips(s, r) then ReleaseNode(s.board, EgressOf(s, r)) else s.board
  {
    hide ReleaseNode, BackoffMs, Throttled;
    ThrottledNotes(s.gate.(permits := s.gate.permits - {r.op.key}), s.topology, EgressOf(s, r), r.worker, r.now,
                   BackoffMs(r.op.retryAfter, r.now));
  }

  lemma ThrottledNotes(g: Gate, t: Topology, node: Node, worker: Worker, now: int, wait: int)
    ensures node in Throttled(g, t, node, worker, now, wait).nodeThrottle
  {
    hide Window, NodesOf;
  }

  lemma ReleaseEases(s: State, r: Request, slug: Slug)
    requires Trips(s, r)
    ensures Eases(s.board, ReleaseNode(s.board, EgressOf(s, r)), slug, Loses(s, r, slug), false)
  {
    hide Step, NodeOf, Trips;
    TripIsResponse(s, r);
    var claims, node := s.board.claims, EgressOf(s, r);
    var gone := Evicted(claims, Primary(slug), node) + Evicted(claims, Secondary(slug), node);
    assert forall k :: k in s.board.claims && k.slug == slug ==> k == Primary(slug) || k == Secondary(slug);
    assert gone == Loses(s, r, slug);
  }

  lemma TripIsResponse(s: State, r: Request)
    ensures Trips(s, r) ==> !r.op.Done?
  {
    hide Step;
  }

  lemma PermitBoard(s: State, r: Request, slug: Slug, key: RequestKey, full: bool)
    ensures PermitStep(s, r, slug, key, full).0.board == s.board
  {
    hide Enqueue, Dequeue;
  }

  lemma AckBoard(s: State, slug: Slug, hash: Hash)
    ensures AckStep(s, slug, hash).0.board == s.board
  {
  }

  // ----- over a whole run -----

  /** The number of rounds an append request would newly store in a mode. */
  ghost function NewRounds(s: State, slug: Slug, docs: seq<Doc>, mode: Mode): nat {
    CountMode(Fresh(docs, Known(s.disk, slug, s.daemon)), mode)
  }

  /** The one thing the client keeps to: it stores no more new rounds of the mode than its reservation still owes. */
  ghost predicate Disciplined(s: State, r: Request, slug: Slug, mode: Mode) {
    r.op.Append? && r.op.slug == slug && UnderLease(s, r) && ValidBatch(slug, r.op.docs)
    && slug in s.board.quotas && s.board.quotas[slug].frozen.Some? ==>
      NewRounds(s, slug, r.op.docs, mode) <= OwedBy(s.board.quotas[slug].frozen.value, r.worker, mode)
  }

  ghost function ReportOf(r: Request, mode: Mode): nat
    requires r.op.ReserveModes?
  {
    Get(Clamped(r.op.counts), mode, 0)
  }

  /** The rounds of a mode that are promised to anyone. */
  ghost function Promised(b: Board, slug: Slug, mode: Mode): nat {
    if slug in b.quotas && b.quotas[slug].frozen.Some? then Outstanding(b.quotas[slug].frozen.value.reservations, mode)
    else 0
  }

  /** The guard: the reported count fits beside what is promised, in the target or in the largest count reported. */
  ghost predicate Fits(s: State, r: Request, slug: Slug, mode: Mode, reported: nat) {
    TakesReport(s, r, slug) ==>
      ReportOf(r, mode) + Promised(s.board, slug, mode)
      <= Max(Get(Clamped(r.op.targets), mode, 0), Max(reported, ReportOf(r, mode)))
  }

  /** The largest count of a mode reported by any of the reservations taken in so far. */
  ghost function MaxReported(states: seq<State>, rs: seq<Request>, slug: Slug, mode: Mode, n: nat): nat
    requires Behavior(states, rs) && n <= |rs|
    decreases n
  {
    if n == 0 then 0
    else
      var before := MaxReported(states, rs, slug, mode, n - 1);
      if TakesReport(states[n - 1], rs[n - 1], slug) then Max(before, ReportOf(rs[n - 1], mode)) else before
  }

  ghost predicate WithinTarget(b: Board, slug: Slug, mode: Mode, reported: nat) {
    slug in b.quotas && b.quotas[slug].frozen.Some? ==>
      var f := b.quotas[slug].frozen.value;
      Committed(f, mode) <= Max(Get(f.targets, mode, 0), reported)
  }

  /** What a reservation does to the bound, whether or not it is the first one for the game. */
  lemma ReserveWithinIff(q: Quota, worker: Worker, counts: map<Mode, int>, targets: map<Mode, int>, maxShards: pos,
                         mode: Mode, reported: nat)
    requires mode != 0 && ValidReport(counts, targets)
    requires q.frozen.Some? ==>
      && q.frozen.value.targets == Clamped(targets)
      && Committed(q.frozen.value, mode) <= Max(Get(q.frozen.value.targets, mode, 0), reported)
    ensures Reserved(q, worker, counts, targets, maxShards).frozen.Some?
    ensures var f' := Reserved(q, worker, counts, targets, maxShards).frozen.value;
      var rep := Get(Clamped(counts), mode, 0);
      var promised := if q.frozen.Some? then Outstanding(q.frozen.value.reservations, mode) else 0;
      && f'.targets == Clamped(targets)
      && (Committed(f', mode) <= Max(Get(f'.targets, mode, 0), Max(reported, rep))
          <==> rep + promised <= Max(Get(Clamped(targets), mode, 0), Max(reported, rep)))
  {
    ReserveCommits(q, worker, counts, targets, maxShards, mode);
  }

  /** One request keeps the bound exactly when it meets the guard. */
  lemma StepWithin(s: State, r: Request, slug: Slug, mode: Mode, reported: nat)
    requires mode != 0 && WithinTarget(s.board, slug, mode, reported) && Disciplined(s, r, slug, mode) && !r.op.Begin?
    ensures WithinTarget(Step(s, r).0.board, slug, mode,
                         if TakesReport(s, r, slug) then Max(reported, ReportOf(r, mode)) else reported)
       <==> Fits(s, r, slug, mode, reported)
  {
    hide Step, Outstanding, Reserved, Credit, Known, Fresh, ValidBatch, ValidReport, Clamped, UnderLease, Loses;
    RecordCases(s, r, slug);
    var f, f' := RecordOf(s.board, slug), RecordOf(Step(s, r).0.board, slug);
    if TakesReport(s, r, slug) {
      ReserveWithinIff(Get(s.board.quotas, slug, NO_QUOTA), r.worker, r.op.counts, r.op.targets, s.topology.maxShards, mode,
                       reported);
    } else if Stores(s, r, slug) && f.Some? {
      CreditConserves(f.value, r.worker, Fresh(r.op.docs, Known(s.disk, slug, s.daemon)), mode);
    } else if f.Some? && f'.Some? && f' != f {
      OutstandingDrop(f.value.reservations, Loses(s, r, slug), mode);
    }
  }

  /** Stored plus promised rounds fit in the target, or in the largest reported count when that is already more. */
  ghost predicate Bounded(states: seq<State>, rs: seq<Request>, slug: Slug, mode: Mode, i: nat)
    requires Behavior(states, rs) && i <= |rs|
  {
    slug in states[i].board.quotas && states[i].board.quotas[slug].frozen.Some? ==>
      var f := states[i].board.quotas[slug].frozen.value;
      Get(f.counts, mode, 0) + Outstanding(f.reservations, mode)
      <= Max(Get(f.targets, mode, 0), MaxReported(states, rs, slug, mode, i))
  }

  ghost predicate FitsAt(states: seq<State>, rs: seq<Request>, slug: Slug, mode: Mode, j: nat)
    requires Behavior(states, rs) && j < |rs|
  {
    Fits(states[j], rs[j], slug, mode, MaxReported(states, rs, slug, mode, j))
  }

  lemma BoundedNext(states: seq<State>, rs: seq<Request>, slug: Slug, mode: Mode, j: nat)
    requires Behavior(states, rs) && j < |rs| && mode != 0 && Bounded(states, rs, slug, mode, j)
    requires Disciplined(states[j], rs[j], slug, mode) && !rs[j].op.Begin?
    ensures Bounded(states, rs, slug, mode, j + 1) <==> FitsAt(states, rs, slug, mode, j)
  {
    hide Step, Disciplined, TakesReport, Fits;
    StepWithin(states[j], rs[j], slug, mode, MaxReported(states, rs, slug, mode, j));
  }

  lemma {:induction false} BoundedAt(states: seq<State>, rs: seq<Request>, slug: Slug, mode: Mode, i: nat)
    requires Behavior(states, rs) && i <= |rs| && states[0].board.quotas == map[] && mode != 0
    requires forall j {:trigger rs[j]} | 0 <= j < |rs| :: Disciplined(states[j], rs[j], slug, mode) && !rs[j].op.Begin?
    requires forall j | 0 <= j < |rs| :: FitsAt(states, rs, slug, mode, j)
    ensures Bounded(states, rs, slug, mode, i)
    decreases i
  {
    hide Step, Disciplined, FitsAt;
    if i > 0 {
      BoundedAt(states, rs, slug, mode, i - 1);
      BoundedNext(states, rs, slug, mode, i - 1);
    }
  }

  /**
   No overshoot over a whole run, exactly: whatever reservations, appends, returned leases and halted nodes interleave,
   and given that workers store no more than they reserved, stored plus promised rounds of a purchase mode stay bounded
   in every state if and only if every reported count fitted beside what was promised when it came in.
   */
  lemma NoQuotaOvershoot(states: seq<State>, rs: seq<Request>, slug: Slug, mode: Mode)
    requires Behavior(states, rs) && states[0].board.quotas == map[] && mode != 0
    requires forall j {:trigger rs[j]} | 0 <= j < |rs| :: Disciplined(states[j], rs[j], slug, mode) && !rs[j].op.Begin?
    ensures (forall i | 0 <= i <= |rs| :: Bounded(states, rs, slug, mode, i))
       <==> (forall j | 0 <= j < |rs| :: FitsAt(states, rs, slug, mode, j))
  {
    hide Step, Disciplined, FitsAt, Bounded;
    if forall j | 0 <= j < |rs| :: FitsAt(states, rs, slug, mode, j) {
      forall i | 0 <= i <= |rs| ensures Bounded(states, rs, slug, mode, i) { BoundedAt(states, rs, slug, mode, i); }
    }
    if forall i | 0 <= i <= |rs| :: Bounded(states, rs, slug, mode, i) {
      forall j | 0 <= j < |rs| ensures FitsAt(states, rs, slug, mode, j) {
        assert Bounded(states, rs, slug, mode, j) && Bounded(states, rs, slug, mode, j + 1);
        BoundedNext(states, rs, slug, mode, j);
      }
    }
  }

  /** A report no larger than the count the coordinator already holds. */
  ghost predicate ReportsKnown(s: State, r: Request, slug: Slug, mode: Mode) {
    TakesReport(s, r, slug) && slug in s.board.quotas && s.board.quotas[slug].frozen.Some? ==>
      ReportOf(r, mode) <= Get(s.board.quotas[slug].frozen.value.counts, mode, 0)
  }

  /** Such a report always fits. */
  lemma KnownReportFits(states: seq<State>, rs: seq<Request>, slug: Slug, mode: Mode, j: nat)
    requires Behavior(states, rs) && j < |rs| && Bounded(states, rs, slug, mode, j)
    requires ReportsKnown(states[j], rs[j], slug, mode)
    ensures FitsAt(states, rs, slug, mode, j)
  {
    hide Step, Outstanding;
  }

  lemma {:induction false} KnownReportsFitUpTo(states: seq<State>, rs: seq<Request>, slug: Slug, mode: Mode, n: nat)
    requires Behavior(states, rs) && n <= |rs| && states[0].board.quotas == map[] && mode != 0
    requires forall j {:trigger rs[j]} | 0 <= j < |rs| ::
      Disciplined(states[j], rs[j], slug, mode) && ReportsKnown(states[j], rs[j], slug, mode) && !rs[j].op.Begin?
    ensures Bounded(states, rs, slug, mode, n)
    decreases n
  {
    hide Step, Disciplined, ReportsKnown, FitsAt;
    if n > 0 {
      KnownReportsFitUpTo(states, rs, slug, mode, n - 1);
      KnownReportFits(states, rs, slug, mode, n - 1);
      BoundedNext(states, rs, slug, mode, n - 1);
    }
  }

  /** So the bound holds over the whole run when no report exceeds what the coordinator holds at that moment. */
  lemma KnownReportsNeverOvershoot(states: seq<State>, rs: seq<Request>, slug: Slug, mode: Mode)
    requires Behavior(states, rs) && states[0].board.quotas == map[] && mode != 0
    requires forall j {:trigger rs[j]} | 0 <= j < |rs| ::
      Disciplined(states[j], rs[j], slug, mode) && ReportsKnown(states[j], rs[j], slug, mode) && !rs[j].op.Begin?
    ensures forall i | 0 <= i <= |rs| :: Bounded(states, rs, slug, mode, i)
  {
    hide Step, Disciplined, ReportsKnown, Bounded;
    forall i | 0 <= i <= |rs| ensures Bounded(states, rs, slug, mode, i) {
      KnownReportsFitUpTo(states, rs, slug, mode, i);
    }
  }

  // ----- the exact split -----

  /** The rounds of a mode still missing once a report has been taken in. */
  ghost function Gap(f: Frozen, mode: Mode): nat {
    Max(0, Get(f.targets, mode, 0) - Committed(f, mode))
  }

  lemma ShareOf(q: Quota, worker: Worker, counts: map<Mode, int>, targets: map<Mode, int>, mode: Mode)
    requires mode != 0 && mode in targets && ValidReport(counts, targets)
    requires q.frozen.Some? ==> q.frozen.value.targets == Clamped(targets)
    requires worker !in Reported(q, counts, targets).reservations
    ensures var f := Reported(q, counts, targets);
      var mine := Reserved(q, worker, counts, targets, 2).frozen.value.reservations[worker];
      && mode in mine.reserved && Get(mine.done, mode, 0) == 0
      && mine.reserved[mode] == CeilDiv(Gap(f, mode), Max(1, 2 - |Owners(f.reservations, mode)|))
  {
    var f := Reported(q, counts, targets);
    assert f.reservations - {worker} == f.reservations;
  }

  /**
   Two shards over a gap of `r` rounds: the first reserves `ceil(r / 2)`; however many of them it has stored by then,
   the second reserves `floor(r / 2)`, less what its report exceeds the known count by. So together they reserve exactly
   `r` if and only if the second shard does not know of more rounds than the coordinator, or has none to reserve.
   */
  lemma ExactSplit(q: Quota, first: Worker, second: Worker, reported: map<Mode, int>, later: map<Mode, int>,
                   targets: map<Mode, int>, docs: seq<Doc>, mode: Mode)
    requires first != second && mode != 0 && mode in targets
    requires ValidReport(reported, targets) && ValidReport(later, targets)
    requires q.frozen.Some? ==> q.frozen.value.targets == Clamped(targets) && q.frozen.value.reservations == map[]
    requires var f1 := Reserved(q, first, reported, targets, 2).frozen.value;
      CountMode(docs, mode) <= OwedBy(f1, first, mode)
    ensures var gap := Gap(Reported(q, reported, targets), mode);
      var f1 := Reserved(q, first, reported, targets, 2).frozen.value;
      var stored := Quota(Some(Credit(f1, first, docs)), false, false, {}, false);
      var f2 := Reserved(stored, second, later, targets, 2).frozen.value;
      var known, told := Get(Credit(f1, first, docs).counts, mode, 0), Get(Clamped(later), mode, 0);
      var one, two := Get(f1.reservations[first].reserved, mode, 0), Get(f2.reservations[second].reserved, mode, 0);
      && one == (gap + 1) / 2
      && two == Max(0, gap / 2 - Max(0, told as int - known as int))
      && (one + two == gap <==> told <= known || gap / 2 == 0)
  {
    hide Reserved, Gap, Committed, Credit, Reported, OwedBy, CountMode, Clamped;
    FirstShare(q, first, reported, targets, mode);
    var f1 := Reserved(q, first, reported, targets, 2).frozen.value;
    GapStays(f1, first, docs, mode);
    CreditOwners(f1, first, docs);
    SecondShare(Credit(f1, first, docs), first, second, later, targets, mode);
  }

  lemma FirstShare(q: Quota, first: Worker, reported: map<Mode, int>, targets: map<Mode, int>, mode: Mode)
    requires mode != 0 && mode in targets && ValidReport(reported, targets)
    requires q.frozen.Some? ==> q.frozen.value.targets == Clamped(targets) && q.frozen.value.reservations == map[]
    ensures Reserved(q, first, reported, targets, 2).frozen.Some?
    ensures var gap := Gap(Reported(q, reported, targets), mode);
      var f1 := Reserved(q, first, reported, targets, 2).frozen.value;
      && f1.targets == Clamped(targets) && f1.reservations.Keys == {first} && mode in f1.reservations[first].reserved
      && f1.reservations[first].reserved[mode] == (gap + 1) / 2
      && Gap(f1, mode) == gap / 2
  {
    var open := Reported(q, reported, targets);
    assert open.reservations == map[];
    assert Owners(open.reservations, mode) == {};
    ShareOf(q, first, reported, targets, mode);
    FirstCommits(open, Reserved(q, first, reported, targets, 2).frozen.value, first, mode);
  }

  lemma GapStays(f: Frozen, worker: Worker, docs: seq<Doc>, mode: Mode)
    requires CountMode(docs, mode) <= OwedBy(f, worker, mode)
    ensures Gap(Credit(f, worker, docs), mode) == Gap(f, mode)
    ensures Credit(f, worker, docs).targets == f.targets
  {
    CreditConserves(f, worker, docs, mode);
  }

  lemma SecondShare(f: Frozen, first: Worker, second: Worker, later: map<Mode, int>, targets: map<Mode, int>, mode: Mode)
    requires first != second && mode != 0 && mode in targets && ValidReport(later, targets)
    requires f.targets == Clamped(targets)
    requires f.reservations.Keys == {first} && mode in f.reservations[first].reserved
    ensures var f2 := Reserved(Quota(Some(f), false, false, {}, false), second, later, targets, 2).frozen.value;
      var known, told := Get(f.counts, mode, 0), Get(Clamped(later), mode, 0);
      Get(f2.reservations[second].reserved, mode, 0) == Max(0, Gap(f, mode) - Max(0, told as int - known as int))
  {
    var stored := Quota(Some(f), false, false, {}, false);
    var told := Reported(stored, later, targets);
    assert Committed(told, mode) - Committed(f, mode) == Get(told.counts, mode, 0) - Get(f.counts, mode, 0);
    assert Owners(told.reservations, mode) == {first};
    ShareOf(stored, second, later, targets, mode);
  }

  lemma FirstCommits(open: Frozen, f1: Frozen, first: Worker, mode: Mode)
    requires open.reservations == map[] && f1.reservations.Keys == {first} && f1.counts == open.counts
    requires Get(f1.reservations[first].done, mode, 0) == 0
    ensures Committed(f1, mode) == Committed(open, mode) + Get(f1.reservations[first].reserved, mode, 0)
  {
    OutstandingRemove(f1.reservations, first, mode);
    assert f1.reservations - {first} == map[];
  }

  lemma {:induction false} CreditOwners(f: Frozen, worker: Worker, docs: seq<Doc>)
    ensures var f' := Credit(f, worker, docs);
      && f'.reservations.Keys == f.reservations.Keys
      && forall w | w in f.reservations :: f'.reservations[w].reserved == f.reservations[w].reserved
    decreases docs
  {
    if docs != [] {
      CreditOwners(CreditOne(f, worker, docs[0].buy), worker, docs[1..]);
    }
  }
}
