/**
 When normal leases leave the seats that unresolved purchase games still need: exactly as long as every game that becomes
 unresolved again finds a free one.
 */
module ReservedSeats {
  import opened Base
  import opened CoordinatorTypes
  import opened CoordinatorSteps
  import opened LeaseSafety

  ghost predicate Reserves(b: Board, t: Topology, modeGames: seq<Slug>) {
    NormalRunning(b.claims) == {} || |NormalRunning(b.claims)| + CountUnresolved(b, modeGames) <= t.maxClaims
  }

  ghost predicate UnavailableCounted(b: Board, t: Topology) {
    forall slug | slug in b.quotas && b.quotas[slug].unavailable :: |b.quotas[slug].unavailableNodes| >= t.maxShards
  }

  ghost predicate SeatInv(b: Board, t: Topology, modeGames: seq<Slug>) {
    && BoardInv(b, t, modeGames)
    && UnavailableCounted(b, t)
    && Reserves(b, t, modeGames)
  }

  // ----- the unresolved games only become fewer -----

  ghost predicate Resolves(b: Board, b': Board) {
    forall slug | Unresolved(b', slug) :: Unresolved(b, slug)
  }

  lemma {:induction false} CountKept(b: Board, b': Board, slugs: seq<Slug>)
    requires Resolves(b, b')
    ensures CountUnresolved(b', slugs) <= CountUnresolved(b, slugs)
    decreases slugs
  {
    if slugs != [] { CountKept(b, b', slugs[1..]); }
  }

  lemma ReservesKept(b: Board, b': Board, t: Topology, modeGames: seq<Slug>)
    requires Reserves(b, t, modeGames) && Resolves(b, b')
    requires NormalRunning(b'.claims) <= NormalRunning(b.claims)
    ensures Reserves(b', t, modeGames)
  {
    CountKept(b, b', modeGames);
    CardinalityMonotone(NormalRunning(b'.claims), NormalRunning(b.claims));
  }

  lemma AcceptResolves(b: Board, slug: Slug, b': Board, now: int)
    requires b' == AcceptSpecial(b, slug) || b' == AcceptNormal(b, slug)
    requires Primary(slug) in b.claims ==> Reclaimable(b.claims[Primary(slug)], now)
    ensures Resolves(b, b')
  {
  }

  lemma {:induction false} PrimaryPassKeeps(b: Board, slugs: seq<Slug>, accepted: set<Slug>, now: int, t: Topology,
                                            modeGames: seq<Slug>)
    requires SeatInv(b, t, modeGames)
    ensures SeatInv(PickPrimary(b, slugs, accepted, now).0, t, modeGames)
    decreases slugs
  {
    if slugs != [] {
      var slug := slugs[0];
      if SkipsPrimary(b, slug, now) {
        PrimaryPassKeeps(b, slugs[1..], accepted, now, t, modeGames);
      } else if slug in accepted {
        var b' := AcceptSpecial(b, slug);
        AcceptKeeps(b, slug, b', t, modeGames);
        AcceptResolves(b, slug, b', now);
        ReservesKept(b, b', t, modeGames);
        PrimaryPassKeeps(b', slugs[1..], accepted, now, t, modeGames);
      }
    }
  }

  lemma {:induction false} NormalPassKeeps(b: Board, slugs: seq<Slug>, accepted: set<Slug>, now: int, t: Topology,
                                           modeGames: seq<Slug>)
    requires SeatInv(b, t, modeGames)
    ensures SeatInv(PickNormal(b, slugs, modeGames, accepted, now).0, t, modeGames)
    ensures Resolves(b, PickNormal(b, slugs, modeGames, accepted, now).0)
    decreases slugs
  {
    if slugs != [] {
      var slug := slugs[0];
      if SkipsNormal(b, slug, modeGames, now) {
        NormalPassKeeps(b, slugs[1..], accepted, now, t, modeGames);
      } else if slug in accepted {
        var b' := AcceptNormal(b, slug);
        AcceptKeeps(b, slug, b', t, modeGames);
        AcceptResolves(b, slug, b', now);
        ReservesKept(b, b', t, modeGames);
        NormalPassKeeps(b', slugs[1..], accepted, now, t, modeGames);
      }
    }
  }

  // ----- every operation keeps the seats -----

  lemma StartSpecial(b: Board, r: Request, key: ClaimKey, shard: nat, t: Topology, modeGames: seq<Slug>)
    requires SeatInv(b, t, modeGames)
    requires BoardInv(b.(claims := b.claims[key := NewClaim(r, true, shard)]), t, modeGames)
    requires key in b.claims ==> Reclaimable(b.claims[key], r.now)
    ensures SeatInv(b.(claims := b.claims[key := NewClaim(r, true, shard)]), t, modeGames)
  {
    hide BoardInv;
    var b' := b.(claims := b.claims[key := NewClaim(r, true, shard)]);
    assert NormalRunning(b'.claims) == NormalRunning(b.claims);
    ReservesKept(b, b', t, modeGames);
  }

  lemma GrantSpecialKeeps(s: State, r: Request, key: ClaimKey, shard: nat)
    requires SeatInv(s.board, s.topology, s.modeGames)
    requires LeaseInv(Grant(s, r, key, true, shard).0)
    requires key in s.board.claims ==> Reclaimable(s.board.claims[key], r.now)
    ensures SeatInv(Grant(s, r, key, true, shard).0.board, s.topology, s.modeGames)
  {
    hide BoardInv, UnavailableCounted, Reserves, NodeTaken, SpreadsFirst, NextGame, Touch, NewClaim;
    var b' := s.board.(claims := s.board.claims[key := NewClaim(r, true, shard)]);
    if Grant(s, r, key, true, shard).0.board == b' {
      StartSpecial(s.board, r, key, shard, s.topology, s.modeGames);
    }
  }

  lemma StartNormal(b: Board, r: Request, slug: Slug, t: Topology, modeGames: seq<Slug>)
    requires Primary(slug) in b.claims ==> Reclaimable(b.claims[Primary(slug)], r.now)
    requires |NormalRunning(b.claims)| + CountUnresolved(b, modeGames) < t.maxClaims
    ensures Reserves(b.(claims := b.claims[Primary(slug) := NewClaim(r, false, 0)]), t, modeGames)
  {
    var b' := b.(claims := b.claims[Primary(slug) := NewClaim(r, false, 0)]);
    assert NormalRunning(b'.claims) == NormalRunning(b.claims) + {Primary(slug)};
    assert Resolves(b, b');
    CountKept(b, b', modeGames);
  }

  lemma GrantNormalKeeps(s: State, r: Request, slug: Slug)
    requires SeatInv(s.board, s.topology, s.modeGames)
    requires LeaseInv(Grant(s, r, Primary(slug), false, 0).0)
    requires Primary(slug) in s.board.claims ==> Reclaimable(s.board.claims[Primary(slug)], r.now)
    requires |NormalRunning(s.board.claims)| + CountUnresolved(s.board, s.modeGames) < s.topology.maxClaims
    ensures SeatInv(Grant(s, r, Primary(slug), false, 0).0.board, s.topology, s.modeGames)
  {
    StartNormal(s.board, r, slug, s.topology, s.modeGames);
    hide BoardInv, NodeTaken, SpreadsFirst, Reserves, NextGame, Touch;
  }

  lemma ScheduleKeepsSeats(s: State, r: Request, accepted: set<Slug>)
    requires SeatInv(s.board, s.topology, s.modeGames)
    requires |RunningKeys(s.board.claims)| < s.topology.maxClaims
    requires |RunningOn(s.board.claims, r.node)| < PerNode(s.topology)
    ensures var s' := Schedule(s, r, accepted).0;
      && s'.topology == s.topology && s'.modeGames == s.modeGames
      && SeatInv(s'.board, s.topology, s.modeGames)
  {
    hide PickPrimary, PickNormal, CountUnresolved, BoardInv, Reserves;
    ScheduleKeeps(s, r, accepted);
    var (b1, primary) := PickPrimary(s.board, s.modeGames, accepted, r.now);
    PickPrimarySound(s.board, s.modeGames, accepted, r.now, s.topology, s.modeGames);
    PrimaryPassKeeps(s.board, s.modeGames, accepted, r.now, s.topology, s.modeGames);
    var s1 := s.(board := b1);
    if primary.Some? {
      GrantSpecialKeeps(s1, r, Primary(primary.value), 1);
    } else {
      PickSecondarySound(b1, s.modeGames, r.node, r.now);
      var secondary := if s.topology.maxShards < 2 then None else PickSecondary(b1, s.modeGames, r.node, r.now);
      if secondary.Some? {
        GrantSpecialKeeps(s1, r, Secondary(secondary.value), 2);
      } else {
        NormalSeatsKept(s, r, accepted);
      }
    }
  }

  lemma NormalSeatsKept(s: State, r: Request, accepted: set<Slug>)
    requires SeatInv(s.board, s.topology, s.modeGames) && LeaseInv(Schedule(s, r, accepted).0)
    requires |RunningKeys(s.board.claims)| < s.topology.maxClaims
    requires PickPrimary(s.board, s.modeGames, accepted, r.now).1.None?
    requires s.topology.maxShards < 2
      || PickSecondary(PickPrimary(s.board, s.modeGames, accepted, r.now).0, s.modeGames, r.node, r.now).None?
    ensures SeatInv(Schedule(s, r, accepted).0.board, s.topology, s.modeGames)
  {
    var b1 := PickPrimary(s.board, s.modeGames, accepted, r.now).0;
    PickPrimarySound(s.board, s.modeGames, accepted, r.now, s.topology, s.modeGames);
    PrimaryPassKeeps(s.board, s.modeGames, accepted, r.now, s.topology, s.modeGames);
    var (b2, normal) := PickNormal(b1, s.games, s.modeGames, accepted, r.now);
    PickNormalSound(b1, s.games, s.modeGames, accepted, r.now, s.topology);
    NormalPassKeeps(b1, s.games, accepted, r.now, s.topology, s.modeGames);
    CountKept(b1, b2, s.modeGames);
    CardinalityMonotone(NormalRunning(s.board.claims), RunningKeys(s.board.claims));
    var waiting := CountUnresolved(b1, s.modeGames);
    if normal.Some? && !(waiting > 0 && (!s.topology.fillIdleNormal
                         || |NormalRunning(s.board.claims)| >= Max(0, s.topology.maxClaims - waiting))) {
      GrantNormalKeeps(s.(board := b2), r, normal.value);
    }
  }

  /** An operation under a lease: it starts nothing, and resolves games at most. */
  ghost predicate Milder(b: Board, b': Board, t: Topology) {
    && UnavailableCounted(b', t)
    && Resolves(b, b')
    && NormalRunning(b'.claims) <= NormalRunning(b.claims)
  }

  lemma MilderKeeps(b: Board, b': Board, t: Topology, modeGames: seq<Slug>)
    requires SeatInv(b, t, modeGames) && Milder(b, b', t) && BoardInv(b', t, modeGames)
    ensures SeatInv(b', t, modeGames)
  {
    hide BoardInv, Resolves, UnavailableCounted;
    ReservesKept(b, b', t, modeGames);
  }

  /** Replacing one quota by one that resolves no less keeps the seats. */
  lemma QuotaMilder(b: Board, slug: Slug, q: Quota, t: Topology)
    requires UnavailableCounted(b, t)
    requires var before := Get(b.quotas, slug, NO_QUOTA);
      && (before.specialComplete ==> q.specialComplete)
      && (before.unavailable ==> q.unavailable) && (q.unavailable ==> |q.unavailableNodes| >= t.maxShards)
    ensures Milder(b, b.(quotas := b.quotas[slug := q]), t)
  {
  }

  // ----- the two ways in which a game becomes unresolved again -----

  function Occurrences(slugs: seq<Slug>, slug: Slug): nat {
    if slugs == [] then 0 else (if slugs[0] == slug then 1 else 0) + Occurrences(slugs[1..], slug)
  }

  /** A game was accepted without counts, and the report of a shard that still holds a lease shows a mode unmet. */
  ghost predicate ReopensAccepted(s: State, key: ClaimKey, counts: map<Mode, int>, targets: map<Mode, int>)
    requires key in s.board.claims
  {
    var q := Get(s.board.quotas, key.slug, NO_QUOTA);
    && s.board.claims[key].specialOnly && ValidReport(counts, targets)
    && q.accepted && q.frozen.None? && !q.unavailable
    && !RunsAs(s.board.claims, Secondary(key.slug), Failed)
    && exists m | m in targets :: m != 0 && targets[m] > Max(0, Get(counts, m, 0))
  }

  /** A lease that was given back as failed is given back again as something else. */
  ghost predicate ReopensFailed(s: State, r: Request, key: ClaimKey, status: Status)
    requires key in s.board.claims
  {
    var c, q := s.board.claims[key], Get(s.board.quotas, key.slug, NO_QUOTA);
    && c.status == Failed && status != Failed
    && !RunsAs(s.board.claims, if key.Primary? then Secondary(key.slug) else Primary(key.slug), Failed)
    && !q.specialComplete
    && !(if c.specialOnly then AfterSpecial(q, c, r, status, s.topology.maxShards) else q).unavailable
  }

  predicate RunsAs(claims: map<ClaimKey, Claim>, key: ClaimKey, status: Status) {
    key in claims && claims[key].status == status
  }

  ghost predicate Reopens(s: State, r: Request) {
    && UnderLease(s, r)
    && var key := WorkerClaim(s.board.claims, r.worker, SlugOf(r.op)).value;
       || (r.op.ReserveModes? && ReopensAccepted(s, key, r.op.counts, r.op.targets))
       || (r.op.Done? && ReopensFailed(s, r, key, r.op.status))
  }

  /** There is a seat for the game that a request reopens, if it reopens one. */
  ghost predicate SeatFree(s: State, r: Request) {
    Reopens(s, r) ==>
      || NormalRunning(s.board.claims) == {}
      || |NormalRunning(s.board.claims)| + CountUnresolved(s.board, s.modeGames) + Occurrences(s.modeGames, SlugOf(r.op))
         <= s.topology.maxClaims
  }

  ghost predicate ReopensOnly(b: Board, b': Board, slug: Slug) {
    && Unresolved(b', slug) && !Unresolved(b, slug)
    && forall other | other != slug :: Unresolved(b', other) == Unresolved(b, other)
  }

  lemma {:induction false} CountReopened(b: Board, b': Board, slug: Slug, slugs: seq<Slug>)
    requires ReopensOnly(b, b', slug)
    ensures CountUnresolved(b', slugs) == CountUnresolved(b, slugs) + Occurrences(slugs, slug)
    decreases slugs
  {
    hide Unresolved;
    if slugs != [] { CountReopened(b, b', slug, slugs[1..]); }
  }

  lemma ReserveSeats(s: State, r: Request, key: ClaimKey, counts: map<Mode, int>, targets: map<Mode, int>)
    requires SeatInv(s.board, s.topology, s.modeGames)
    requires key in s.board.claims && s.board.claims[key].worker.Some?
    ensures var b' := ReserveStep(s, r, key, counts, targets).0.board;
      && BoardInv(b', s.topology, s.modeGames) && UnavailableCounted(b', s.topology)
      && NormalRunning(b'.claims) == NormalRunning(s.board.claims)
      && (if ReopensAccepted(s, key, counts, targets) then ReopensOnly(s.board, b', key.slug)
          else Milder(s.board, b', s.topology))
  {
    ReserveKeeps(s, r, key, counts, targets);
    var b := s.board;
    if key.slug in b.quotas { assert QuotaRecord(b, key.slug); }
    hide BoardInv, Reserved, LocalTargets, QuotaRecord, ReopensOnly, Milder, Unresolved;
    if ReserveStep(s, r, key, counts, targets).0.board == b {
      SameMilder(b, s.topology);
    } else if Get(b.quotas, key.slug, NO_QUOTA).frozen.Some? {
      LaterReservation(s, r, key, counts, targets);
    } else {
      FirstReservation(s, r, key, counts, targets);
    }
  }

  lemma SameMilder(b: Board, t: Topology)
    requires UnavailableCounted(b, t)
    ensures Milder(b, b, t)
  {
  }

  lemma LaterReservation(s: State, r: Request, key: ClaimKey, counts: map<Mode, int>, targets: map<Mode, int>)
    requires key in s.board.claims && ReserveStep(s, r, key, counts, targets).0.board != s.board
    requires key.slug in s.board.quotas && s.board.quotas[key.slug].frozen.Some? && QuotaRecord(s.board, key.slug)
    requires UnavailableCounted(s.board, s.topology)
    ensures var b' := ReserveStep(s, r, key, counts, targets).0.board;
      Milder(s.board, b', s.topology) && b'.claims == s.board.claims && UnavailableCounted(b', s.topology)
  {
    hide ReservationOf, LocalTargets;
    var q, q' := s.board.quotas[key.slug], ReserveStep(s, r, key, counts, targets).0.board.quotas[key.slug];
    if q.specialComplete { MetStaysMet(q.frozen.value, q'.frozen.value); }
    QuotaMilder(s.board, key.slug, q', s.topology);
  }

  /** A first reservation completes a game exactly when the report meets every target. */
  lemma FirstReservation(s: State, r: Request, key: ClaimKey, counts: map<Mode, int>, targets: map<Mode, int>)
    requires key in s.board.claims && s.board.claims[key].specialOnly && s.board.claims[key].worker.Some?
    requires ValidReport(counts, targets) && Get(s.board.quotas, key.slug, NO_QUOTA).frozen.None?
    requires key.slug in s.board.quotas ==> QuotaRecord(s.board, key.slug)
    requires UnavailableCounted(s.board, s.topology)
    ensures var b' := ReserveStep(s, r, key, counts, targets).0.board;
      && UnavailableCounted(b', s.topology)
      && (if ReopensAccepted(s, key, counts, targets) then ReopensOnly(s.board, b', key.slug)
          else Milder(s.board, b', s.topology))
  {
    hide ReservationOf, LocalTargets, AllMet, Raised;
    var b, b' := s.board, ReserveStep(s, r, key, counts, targets).0.board;
    var q, q' := Get(b.quotas, key.slug, NO_QUOTA), b'.quotas[key.slug];
    assert b' == b.(quotas := b.quotas[key.slug := q']);
    MetByReport(q, r.worker, counts, targets, s.topology.maxShards);
  }

  lemma MetByReport(q: Quota, worker: Worker, counts: map<Mode, int>, targets: map<Mode, int>, maxShards: pos)
    requires q.frozen.None? && ValidReport(counts, targets)
    ensures Reserved(q, worker, counts, targets, maxShards).specialComplete
       <==> !exists m | m in targets :: m != 0 && targets[m] > Max(0, Get(counts, m, 0))
  {
    hide ReservationOf;
    var f' := Reserved(q, worker, counts, targets, maxShards).frozen.value;
    assert f'.targets == Clamped(targets);
    assert forall m | m in targets ::
      Get(f'.counts, m, 0) == Max(0, Get(counts, m, 0)) && f'.targets[m] == Max(0, targets[m]);
  }

  lemma MetStaysMet(f: Frozen, f': Frozen)
    requires AllMet(f) && f'.targets == f.targets
    requires forall m :: Get(f.counts, m, 0) <= Get(f'.counts, m, 0)
    ensures AllMet(f')
  {
  }

  lemma AppendKeepsSeats(s: State, r: Request, slug: Slug, docs: seq<Doc>)
    requires SeatInv(s.board, s.topology, s.modeGames)
    ensures SeatInv(AppendStep(s, r, slug, docs).0.board, s.topology, s.modeGames)
  {
    hide Known, StoreRounds, Commit, Touch, ValidBatch;
    var b' := AppendStep(s, r, slug, docs).0.board;
    if b' != s.board {
      AppendKeeps(s, r, slug, docs);
      var added := Fresh(docs, Known(s.disk, slug, s.daemon));
      var q := s.board.quotas[slug];
      assert QuotaRecord(s.board, slug);
      hide BoardInv;
      CreditGrows(q.frozen.value, r.worker, added);
      if q.specialComplete { MetStaysMet(q.frozen.value, Credit(q.frozen.value, r.worker, added)); }
      QuotaMilder(s.board, slug, CreditQuota(q, r.worker, added), s.topology);
      MilderKeeps(s.board, b', s.topology, s.modeGames);
    }
  }

  lemma AfterSpecialMild(q: Quota, c: Claim, r: Request, status: Status, maxShards: pos)
    requires q.unavailable ==> |q.unavailableNodes| >= maxShards
    ensures var q' := AfterSpecial(q, c, r, status, maxShards);
      && (q.unavailable ==> q'.unavailable)
      && (q'.unavailable ==> |q'.unavailableNodes| >= maxShards)
      && q'.specialComplete == q.specialComplete && q'.accepted == q.accepted
  {
    CardinalityMonotone(q.unavailableNodes, q.unavailableNodes + {if c.node.Some? then c.node.value else r.node});
  }

  lemma DoneSeats(s: State, r: Request, key: ClaimKey, status: Status)
    requires SeatInv(s.board, s.topology, s.modeGames)
    requires key in s.board.claims && s.board.claims[key].worker.Some? && status != Running
    ensures var b' := DoneStep(s, r, key, status).0.board;
      && BoardInv(b', s.topology, s.modeGames) && UnavailableCounted(b', s.topology)
      && NormalRunning(b'.claims) <= NormalRunning(s.board.claims)
      && (if ReopensFailed(s, r, key, status) then
            ReopensOnly(s.board, b', key.slug) && NormalRunning(b'.claims) == NormalRunning(s.board.claims)
          else Milder(s.board, b', s.topology))
  {
    DoneKeeps(s, r, key, status);
    hide BoardInv;
    DoneResolves(s, r, key, status);
  }

  lemma DoneResolves(s: State, r: Request, key: ClaimKey, status: Status)
    requires UnavailableCounted(s.board, s.topology)
    requires key in s.board.claims && s.board.claims[key].worker.Some? && status != Running
    ensures var b' := DoneStep(s, r, key, status).0.board;
      && UnavailableCounted(b', s.topology)
      && NormalRunning(b'.claims) <= NormalRunning(s.board.claims)
      && (if ReopensFailed(s, r, key, status) then
            ReopensOnly(s.board, b', key.slug) && NormalRunning(b'.claims) == NormalRunning(s.board.claims)
          else Milder(s.board, b', s.topology))
  {
    DoneFrame(s, r, key, status);
    DoneCounted(s, r, key, status);
    DoneOthers(s, r, key, status);
    DoneReopens(s, r, key, status);
    hide DoneStep, UnavailableCounted, Unresolved;
  }

  lemma DoneOthers(s: State, r: Request, key: ClaimKey, status: Status)
    requires key in s.board.claims
    ensures var b' := DoneStep(s, r, key, status).0.board;
      forall other | other != key.slug :: Unresolved(b', other) == Unresolved(s.board, other)
  {
    DoneFrame(s, r, key, status);
    hide DoneStep;
  }

  lemma DoneReopens(s: State, r: Request, key: ClaimKey, status: Status)
    requires UnavailableCounted(s.board, s.topology) && key in s.board.claims
    ensures var b' := DoneStep(s, r, key, status).0.board;
      ReopensFailed(s, r, key, status) <==> Unresolved(b', key.slug) && !Unresolved(s.board, key.slug)
  {
    DoneFrame(s, r, key, status);
    AfterSpecialMild(Get(s.board.quotas, key.slug, NO_QUOTA), s.board.claims[key], r, status, s.topology.maxShards);
    hide AfterSpecial, DoneStep, Finished, UnavailableCounted;
    assert key == Primary(key.slug) || key == Secondary(key.slug);
  }

  lemma DoneCounted(s: State, r: Request, key: ClaimKey, status: Status)
    requires UnavailableCounted(s.board, s.topology) && key in s.board.claims && status != Running
    ensures var b' := DoneStep(s, r, key, status).0.board;
      UnavailableCounted(b', s.topology) && NormalRunning(b'.claims) <= NormalRunning(s.board.claims)
  {
    DoneFrame(s, r, key, status);
    hide AfterSpecial, DoneStep, Finished;
    AfterSpecialMild(Get(s.board.quotas, key.slug, NO_QUOTA), s.board.claims[key], r, status, s.topology.maxShards);
  }

  lemma DoneFrame(s: State, r: Request, key: ClaimKey, status: Status)
    requires key in s.board.claims
    ensures var b, b' := s.board, DoneStep(s, r, key, status).0.board;
      && b'.claims.Keys == b.claims.Keys && b'.claims[key].status == status
      && b'.claims[key].specialOnly == b.claims[key].specialOnly
      && (forall k | k in b.claims && k != key :: b'.claims[k] == b.claims[k])
      && b.quotas.Keys <= b'.quotas.Keys <= b.quotas.Keys + {key.slug}
      && (forall slug | slug in b'.quotas && slug != key.slug :: b'.quotas[slug] == b.quotas[slug])
      && Get(b'.quotas, key.slug, NO_QUOTA)
         == var q := Get(b.quotas, key.slug, NO_QUOTA);
            if b.claims[key].specialOnly then AfterSpecial(q, b.claims[key], r, status, s.topology.maxShards) else q
  {
    hide AfterSpecial, SyncGame;
  }

  lemma ReleaseMilder(b: Board, node: Node, t: Topology)
    requires UnavailableCounted(b, t)
    ensures Milder(b, ReleaseNode(b, node), t)
  {
    hide NodeOf, Evicted;
    var b' := ReleaseNode(b, node);
    forall slug | slug in b'.quotas ensures KeepsCounts(b.quotas[slug], b'.quotas[slug])
      && b'.quotas[slug].unavailable == b.quotas[slug].unavailable
      && b'.quotas[slug].unavailableNodes == b.quotas[slug].unavailableNodes {
    }
  }

  lemma ReleaseKeepsSeats(b: Board, node: Node, t: Topology, modeGames: seq<Slug>)
    requires SeatInv(b, t, modeGames)
    ensures SeatInv(ReleaseNode(b, node), t, modeGames)
  {
    ReleaseLoosens(b, node);
    LoosensKeeps(b, ReleaseNode(b, node), t, modeGames);
    ReleaseMilder(b, node, t);
    hide ReleaseNode;
    MilderKeeps(b, ReleaseNode(b, node), t, modeGames);
  }

  // ----- whole runs -----

  /** A request keeps the seats exactly when there is one for the game it reopens. */
  lemma StepSeats(s: State, r: Request)
    requires SeatInv(s.board, s.topology, s.modeGames) && GivesBack(r) && !r.op.Begin?
    ensures var s' := Step(s, r).0;
      && s'.topology == s.topology && s'.modeGames == s.modeGames
      && BoardInv(s'.board, s.topology, s.modeGames) && UnavailableCounted(s'.board, s.topology)
      && (Reserves(s'.board, s.topology, s.modeGames) <==> SeatFree(s, r))
  {
    hide Schedule, LeasedStep, ReopensAccepted, ReopensFailed, BoardInv, UnavailableCounted, Reserves, CountUnresolved;
    var key := WorkerClaim(s.board.claims, r.worker, SlugOf(r.op));
    if r.op.Claims? {
      if |RunningKeys(s.board.claims)| < s.topology.maxClaims
         && |RunningOn(s.board.claims, r.node)| < PerNode(s.topology) {
        ScheduleKeepsSeats(s, r, r.op.accepted);
      }
    } else if key.Some? && s.owner == Some(r.run) {
      LeasedSeats(s, r, key.value);
    }
  }

  lemma LeasedSeats(s: State, r: Request, key: ClaimKey)
    requires SeatInv(s.board, s.topology, s.modeGames) && GivesBack(r) && s.owner == Some(r.run)
    requires WorkerClaim(s.board.claims, r.worker, SlugOf(r.op)) == Some(key)
    ensures var s' := LeasedStep(s, r, key).0;
      && s'.topology == s.topology && s'.modeGames == s.modeGames
      && BoardInv(s'.board, s.topology, s.modeGames) && UnavailableCounted(s'.board, s.topology)
      && (Reserves(s'.board, s.topology, s.modeGames) <==> SeatFree(s, r))
  {
    hide BoardInv, UnavailableCounted, CountUnresolved, ReopensAccepted, ReopensFailed, ReopensOnly, Milder, ReserveStep,
      DoneStep, AppendStep, ResponseStep, PermitStep, AckStep;
    LeasedFrame(s, r, key);
    match r.op
    case ReserveModes(slug, counts, targets) =>
      ReserveSeats(s, r, key, counts, targets);
      LeasedCounts(s, r, key, ReopensAccepted(s, key, counts, targets));
    case Done(slug, status) =>
      DoneSeats(s, r, key, status);
      LeasedCounts(s, r, key, ReopensFailed(s, r, key, status));
    case Append(slug, docs) => AppendKeepsSeats(s, r, slug, docs);
    case Response(_, _, _, _, _) => ReleaseKeepsSeats(s.board, EgressOf(s, r), s.topology, s.modeGames);
    case _ =>
  }

  lemma LeasedCounts(s: State, r: Request, key: ClaimKey, reopens: bool)
    requires SeatInv(s.board, s.topology, s.modeGames) && key in s.board.claims && key.slug == SlugOf(r.op)
    requires BoardInv(LeasedStep(s, r, key).0.board, s.topology, s.modeGames)
    requires var b' := LeasedStep(s, r, key).0.board;
      if reopens then ReopensOnly(s.board, b', key.slug) && NormalRunning(b'.claims) == NormalRunning(s.board.claims)
      else Milder(s.board, b', s.topology)
    ensures var b' := LeasedStep(s, r, key).0.board;
      if reopens then
        Reserves(b', s.topology, s.modeGames)
        <==> NormalRunning(s.board.claims) == {}
             || |NormalRunning(s.board.claims)| + CountUnresolved(s.board, s.modeGames) + Occurrences(s.modeGames, key.slug)
                <= s.topology.maxClaims
      else Reserves(b', s.topology, s.modeGames)
  {
    hide LeasedStep, ReopensOnly, Milder, BoardInv, UnavailableCounted;
    var b' := LeasedStep(s, r, key).0.board;
    if reopens {
      CountReopened(s.board, b', key.slug, s.modeGames);
    } else {
      MilderKeeps(s.board, b', s.topology, s.modeGames);
    }
  }

  lemma LeasedFrame(s: State, r: Request, key: ClaimKey)
    requires key in s.board.claims
    ensures var s' := LeasedStep(s, r, key).0;
      && s'.topology == s.topology && s'.modeGames == s.modeGames
      && (r.op.Response? ==> s'.board == s.board || s'.board == ReleaseNode(s.board, EgressOf(s, r)))
      && (r.op.Permits? || r.op.Ack? ==> s'.board == s.board)
  {
    hide ReleaseNode, AfterSpecial, Reserved, LocalTargets, ValidReport, BackoffMs, Dequeue, Enqueue, Finished, SyncGame,
      Fresh, ValidBatch, Window, Known, StoreRounds, Touch, Commit, Throttled;
  }

  lemma {:induction false} SeatsAt(states: seq<State>, rs: seq<Request>, i: nat)
    requires Behavior(states, rs) && states[0].board == Board(map[], map[]) && i < |states|
    requires forall j {:trigger rs[j]} | 0 <= j < |rs| :: GivesBack(rs[j]) && !rs[j].op.Begin?
    requires forall j {:trigger rs[j]} | 0 <= j < i :: SeatFree(states[j], rs[j])
    ensures var s := states[i];
      && s.topology == states[0].topology && s.modeGames == states[0].modeGames
      && SeatInv(s.board, s.topology, s.modeGames)
    decreases i
  {
    if i == 0 {
      EmptyBoard(states[0].topology, states[0].modeGames);
    } else {
      hide Step, SeatFree, GivesBack;
      SeatsAt(states, rs, i - 1);
      StepSeats(states[i - 1], rs[i - 1]);
    }
  }

  ghost predicate SeatsKept(s: State) {
    NormalRunning(s.board.claims) == {}
    || |NormalRunning(s.board.claims)| + CountUnresolved(s.board, s.modeGames) <= s.topology.maxClaims
  }

  /**
   From the start of a run on, whatever the workers do and whenever games become accepted: in every state either no
   normal lease is running, or the running normal leases leave one seat free for every purchase game that is not
   complete, unavailable or failed, if and only if every request that reopens a game finds a free seat for it.
   */
  lemma SeatsStayReserved(states: seq<State>, rs: seq<Request>)
    requires Behavior(states, rs) && states[0].board == Board(map[], map[])
    requires forall j {:trigger rs[j]} | 0 <= j < |rs| :: GivesBack(rs[j]) && !rs[j].op.Begin?
    ensures (forall i | 0 <= i < |states| :: SeatsKept(states[i]))
       <==> (forall j {:trigger rs[j]} | 0 <= j < |rs| :: SeatFree(states[j], rs[j]))
  {
    hide Step, SeatFree, GivesBack;
    if forall j {:trigger rs[j]} | 0 <= j < |rs| :: SeatFree(states[j], rs[j]) {
      forall i | 0 <= i < |states| ensures SeatsKept(states[i]) { SeatsAt(states, rs, i); }
    }
    if forall i | 0 <= i < |states| :: SeatsKept(states[i]) {
      forall j {:trigger rs[j]} | 0 <= j < |rs| ensures SeatFree(states[j], rs[j]) {
        FreeUpTo(states, rs, j + 1);
      }
    }
  }

  lemma {:induction false} FreeUpTo(states: seq<State>, rs: seq<Request>, n: nat)
    requires Behavior(states, rs) && states[0].board == Board(map[], map[]) && n <= |rs|
    requires forall j {:trigger rs[j]} | 0 <= j < |rs| :: GivesBack(rs[j]) && !rs[j].op.Begin?
    requires forall i | 0 <= i < |states| :: SeatsKept(states[i])
    ensures forall j {:trigger rs[j]} | 0 <= j < n :: SeatFree(states[j], rs[j])
    decreases n
  {
    hide Step, SeatFree, GivesBack;
    if n > 0 {
      FreeUpTo(states, rs, n - 1);
      SeatsAt(states, rs, n - 1);
      StepSeats(states[n - 1], rs[n - 1]);
      assert SeatsKept(states[n]);
    }
  }

  // ----- clients that never reopen a game -----

  /** No game becomes accepted beside a second shard. */
  ghost predicate AcceptsAlone(s: State, r: Request) {
    r.op.Claims? ==>
      forall slug | slug in r.op.accepted && slug in s.modeGames && !SkipsPrimary(s.board, slug, r.now) ::
        Secondary(slug) !in s.board.claims
  }

  /** A lease that failed is not given back as anything else. */
  ghost predicate FailsForGood(s: State, r: Request) {
    r.op.Done? ==>
      var key := WorkerClaim(s.board.claims, r.worker, r.op.slug);
      key.Some? && s.board.claims[key.value].status == Failed ==> r.op.status == Failed
  }

  /** Nobody holds a lease on an accepted game, and its record has no counts. */
  ghost predicate AcceptedAlone(b: Board) {
    forall slug | slug in b.quotas && b.quotas[slug].accepted ::
      b.quotas[slug].frozen.None? && b.quotas[slug].specialComplete && Secondary(slug) !in b.claims && Settled(b, slug)
  }

  lemma {:induction false} PrimaryPassAlone(b: Board, slugs: seq<Slug>, accepted: set<Slug>, now: int)
    requires AcceptedAlone(b)
    requires forall slug | slug in slugs && slug in accepted && !SkipsPrimary(b, slug, now) :: Secondary(slug) !in b.claims
    ensures AcceptedAlone(PickPrimary(b, slugs, accepted, now).0)
    decreases slugs
  {
    if slugs != [] {
      if SkipsPrimary(b, slugs[0], now) {
        PrimaryPassAlone(b, slugs[1..], accepted, now);
      } else if slugs[0] in accepted {
        assert slugs[0] in slugs;
        PrimaryPassAlone(AcceptSpecial(b, slugs[0]), slugs[1..], accepted, now);
      }
    }
  }

  lemma {:induction false} NormalPassAlone(b: Board, slugs: seq<Slug>, modeGames: seq<Slug>, accepted: set<Slug>, now: int)
    requires AcceptedAlone(b)
    ensures AcceptedAlone(PickNormal(b, slugs, modeGames, accepted, now).0)
    decreases slugs
  {
    if slugs != [] {
      if SkipsNormal(b, slugs[0], modeGames, now) {
        NormalPassAlone(b, slugs[1..], modeGames, accepted, now);
      } else if slugs[0] in accepted {
        NormalPassAlone(AcceptNormal(b, slugs[0]), slugs[1..], modeGames, accepted, now);
      }
    }
  }

  lemma GrantAlone(s: State, r: Request, key: ClaimKey, special: bool, shard: nat)
    requires AcceptedAlone(s.board) && !Get(s.board.quotas, key.slug, NO_QUOTA).accepted
    ensures AcceptedAlone(Grant(s, r, key, special, shard).0.board)
  {
    hide NodeTaken, SpreadsFirst, NextGame, Touch, NewClaim;
  }

  lemma ClaimAlone(s: State, r: Request, accepted: set<Slug>)
    requires LeaseInv(s) && AcceptedAlone(s.board) && r.op == Claims(accepted) && AcceptsAlone(s, r)
    ensures AcceptedAlone(ClaimStep(s, r, accepted).0.board)
  {
    hide PickPrimary, PickNormal, CountUnresolved, BoardInv, Grant, AcceptedAlone;
    var (b1, primary) := PickPrimary(s.board, s.modeGames, accepted, r.now);
    PickPrimarySound(s.board, s.modeGames, accepted, r.now, s.topology, s.modeGames);
    PrimaryPassAlone(s.board, s.modeGames, accepted, r.now);
    var s1 := s.(board := b1);
    if primary.Some? {
      OpenIsNotAccepted(b1, primary.value);
      GrantAlone(s1, r, Primary(primary.value), true, 1);
    }
    PickSecondarySound(b1, s.modeGames, r.node, r.now);
    var secondary := PickSecondary(b1, s.modeGames, r.node, r.now);
    if secondary.Some? {
      OpenIsNotAccepted(b1, secondary.value);
      GrantAlone(s1, r, Secondary(secondary.value), true, 2);
    }
    var (b2, normal) := PickNormal(b1, s.games, s.modeGames, accepted, r.now);
    PickNormalSound(b1, s.games, s.modeGames, accepted, r.now, s.topology);
    NormalPassAlone(b1, s.games, s.modeGames, accepted, r.now);
    if normal.Some? {
      OpenIsNotAccepted(b2, normal.value);
      GrantAlone(s.(board := b2), r, Primary(normal.value), false, 0);
    }
  }

  lemma OpenIsNotAccepted(b: Board, slug: Slug)
    requires AcceptedAlone(b)
    requires !Get(b.quotas, slug, NO_QUOTA).specialComplete || !Settled(b, slug)
    ensures !Get(b.quotas, slug, NO_QUOTA).accepted
  {
  }

  /** An operation under a lease: accepted games keep their record, and no other becomes accepted. */
  lemma KeepsAlone(b: Board, b': Board)
    requires AcceptedAlone(b) && Loosens(b, b')
    ensures AcceptedAlone(b')
  {
    forall slug | slug in b'.quotas && b'.quotas[slug].accepted
      ensures b'.quotas[slug].frozen.None? && b'.quotas[slug].specialComplete && Secondary(slug) !in b'.claims
           && Settled(b', slug)
    {
      assert KeepsCounts(Get(b.quotas, slug, NO_QUOTA), b'.quotas[slug]);
      assert Stops(b.claims[Primary(slug)], b'.claims[Primary(slug)]);
    }
  }

  lemma PutAlone(b: Board, slug: Slug, q: Quota)
    requires AcceptedAlone(b) && !q.accepted
    ensures AcceptedAlone(b.(quotas := b.quotas[slug := q]))
  {
  }

  /** Whoever holds a lease on a game acts on one that is not accepted. */
  lemma LeaseIsNotAccepted(b: Board, worker: Worker, slug: Slug)
    requires AcceptedAlone(b) && WorkerClaim(b.claims, worker, slug).Some?
    ensures !Get(b.quotas, slug, NO_QUOTA).accepted
  {
  }

  lemma LeasedAlone(s: State, r: Request, key: ClaimKey)
    requires AcceptedAlone(s.board) && GivesBack(r)
    requires WorkerClaim(s.board.claims, r.worker, SlugOf(r.op)) == Some(key)
    ensures AcceptedAlone(LeasedStep(s, r, key).0.board)
  {
    hide ReserveStep, DoneStep, AppendStep, ResponseStep, PermitStep, AckStep, AcceptedAlone, ReleaseNode, Loosens;
    LeaseIsNotAccepted(s.board, r.worker, key.slug);
    LeasedFrame(s, r, key);
    match r.op
    case ReserveModes(slug, counts, targets) => ReserveAlone(s, r, key, counts, targets);
    case Append(slug, docs) => AppendAlone(s, r, slug, docs);
    case Done(_, status) =>
      DoneLoosens(s, r, key, status);
      KeepsAlone(s.board, DoneStep(s, r, key, status).0.board);
    case Response(_, _, _, _, _) =>
      ReleaseLoosens(s.board, EgressOf(s, r));
      KeepsAlone(s.board, ReleaseNode(s.board, EgressOf(s, r)));
    case _ =>
  }

  lemma ReserveAlone(s: State, r: Request, key: ClaimKey, counts: map<Mode, int>, targets: map<Mode, int>)
    requires AcceptedAlone(s.board) && key in s.board.claims && !Get(s.board.quotas, key.slug, NO_QUOTA).accepted
    ensures AcceptedAlone(ReserveStep(s, r, key, counts, targets).0.board)
  {
    hide ReservationOf, LocalTargets, AllMet, Raised, AcceptedAlone;
    var b' := ReserveStep(s, r, key, counts, targets).0.board;
    if b' != s.board { PutAlone(s.board, key.slug, b'.quotas[key.slug]); }
  }

  lemma AppendAlone(s: State, r: Request, slug: Slug, docs: seq<Doc>)
    requires AcceptedAlone(s.board) && !Get(s.board.quotas, slug, NO_QUOTA).accepted
    ensures AcceptedAlone(AppendStep(s, r, slug, docs).0.board)
  {
    hide Known, StoreRounds, Commit, Touch, ValidBatch, Credit, AllMet, AcceptedAlone;
    var b' := AppendStep(s, r, slug, docs).0.board;
    if b' != s.board { PutAlone(s.board, slug, b'.quotas[slug]); }
  }

  lemma StepAlone(s: State, r: Request)
    requires LeaseInv(s) && AcceptedAlone(s.board) && GivesBack(r) && AcceptsAlone(s, r) && !r.op.Begin?
    ensures AcceptedAlone(Step(s, r).0.board)
  {
    hide AcceptedAlone, AcceptsAlone, BoardInv, ClaimStep, LeasedStep;
    var key := WorkerClaim(s.board.claims, r.worker, SlugOf(r.op));
    if r.op.Claims? {
      ClaimAlone(s, r, r.op.accepted);
    } else if key.Some? && s.owner == Some(r.run) {
      LeasedAlone(s, r, key.value);
    }
  }

  lemma {:induction false} AloneAt(states: seq<State>, rs: seq<Request>, i: nat)
    requires Behavior(states, rs) && states[0].board == Board(map[], map[]) && i < |states|
    requires forall j {:trigger rs[j]} | 0 <= j < |rs| :: GivesBack(rs[j]) && !rs[j].op.Begin?
    requires forall j {:trigger rs[j]} | 0 <= j < |rs| :: AcceptsAlone(states[j], rs[j])
    ensures LeaseInv(states[i]) && AcceptedAlone(states[i].board)
    decreases i
  {
    hide Step, AcceptsAlone, GivesBack;
    if i == 0 {
      EmptyBoard(states[0].topology, states[0].modeGames);
    } else {
      AloneAt(states, rs, i - 1);
      StepKeepsLeases(states[i - 1], rs[i - 1]);
      StepAlone(states[i - 1], rs[i - 1]);
    }
  }

  /** While no game becomes accepted beside a second shard and failed leases stay failed, every seat stays reserved. */
  lemma AloneKeepsSeats(states: seq<State>, rs: seq<Request>, i: nat)
    requires Behavior(states, rs) && states[0].board == Board(map[], map[]) && i < |states|
    requires forall j {:trigger rs[j]} | 0 <= j < |rs| :: GivesBack(rs[j]) && !rs[j].op.Begin?
    requires forall j {:trigger rs[j]} | 0 <= j < |rs| :: AcceptsAlone(states[j], rs[j]) && FailsForGood(states[j], rs[j])
    ensures SeatsKept(states[i])
  {
    hide Step, AcceptsAlone, GivesBack, SeatFree, FailsForGood, LeaseInv;
    forall j {:trigger rs[j]} | 0 <= j < |rs| ensures SeatFree(states[j], rs[j]) {
      AloneAt(states, rs, j);
      NothingReopens(states[j], rs[j]);
    }
    SeatsStayReserved(states, rs);
  }

  lemma NothingReopens(s: State, r: Request)
    requires AcceptedAlone(s.board) && FailsForGood(s, r)
    ensures !Reopens(s, r) && SeatFree(s, r)
  {
    hide AcceptedAlone;
    if WorkerClaim(s.board.claims, r.worker, SlugOf(r.op)).Some? { LeaseIsNotAccepted(s.board, r.worker, SlugOf(r.op)); }
  }

  // ----- a late acceptance takes a seat away -----

  /**
   When a game is accepted while its second shard still runs, that shard's first reservation makes the game unresolved
   again exactly when it reports a purchase mode below its target.
   */
  lemma LateAcceptanceReopens(s: State, r: Request, slug: Slug, counts: map<Mode, int>, targets: map<Mode, int>)
    requires slug in s.board.quotas && s.board.quotas[slug] == ACCEPTED_QUOTA
    requires Settled(s.board, slug) && SpecialRunning(s.board.claims, Secondary(slug))
    requires ValidReport(counts, targets)
    ensures !Unresolved(s.board, slug)
    ensures Unresolved(ReserveStep(s, r, Secondary(slug), counts, targets).0.board, slug)
       <==> exists m | m in targets :: m != 0 && targets[m] > Max(0, Get(counts, m, 0))
  {
    hide ReservationOf, LocalTargets, AllMet, Raised;
    MetByReport(ACCEPTED_QUOTA, r.worker, counts, targets, s.topology.maxShards);
  }

  const LATE_BUDGET := Topology(2, 1, 9, 9, 2, 2, true, false, 0)

  const LATE_CLAIMS := map[
    Primary("a") := Claim(Running, Some("1.1"), Some("1"), false, 0, 0, 0, 0),
    Primary("b") := Claim(Retryable, Some("2.1"), Some("2"), true, 1, 0, 60_000, 1),
    Primary("c") := ACCEPTED_CLAIM,
    Secondary("c") := Claim(Running, Some("2.2"), Some("2"), true, 2, 0, 0, 0)]

  const LATE_BOARD := Board(LATE_CLAIMS,
    map["a" := Quota(Some(Frozen(map[1 := 0], map[1 := 0], map[])), true, false, {}, false), "c" := ACCEPTED_QUOTA])

  const LATE_STATE := State(true, Some("run"), 9, LATE_BUDGET, ["a", "b", "c"], ["a", "b", "c"], None, 0, false, LATE_BOARD,
    Gate(0, map[], [], map[], map[], {}, []), Disk(map[], map[], map[], map[], map[], map[]), map[], 0)

  const LATE_REPORT := Request("run", 0, "2.2", "2", ReserveModes("c", map[1 := 0], map[1 := 5]))

  lemma LateCaps()
    ensures WithinCaps(LATE_CLAIMS, LATE_BUDGET)
    ensures NormalRunning(LATE_CLAIMS) == {Primary("a")}
  {
    assert RunningKeys(LATE_CLAIMS) == {Primary("a"), Secondary("c")};
    forall node ensures |RunningOn(LATE_CLAIMS, node)| <= 1 {
      assert RunningOn(LATE_CLAIMS, node)
          == if node == "1" then {Primary("a")} else if node == "2" then {Secondary("c")} else {};
    }
  }

  lemma LateCount()
    ensures CountUnresolved(LATE_BOARD, LATE_STATE.modeGames) == 1
  {
    assert Unresolved(LATE_BOARD, "b") && !Unresolved(LATE_BOARD, "a") && !Unresolved(LATE_BOARD, "c");
    CountThree(LATE_BOARD, "a", "b", "c");
  }

  lemma CountThree(b: Board, x: Slug, y: Slug, z: Slug)
    ensures CountUnresolved(b, [x, y, z])
         == (if Unresolved(b, x) then 1 else 0) + (if Unresolved(b, y) then 1 else 0) + if Unresolved(b, z) then 1 else 0
  {
    hide Unresolved;
    assert [x, y, z][1..] == [y, z] && [y, z][1..] == [z] && [z][1..] == [];
    assert CountUnresolved(b, []) == 0;
    assert CountUnresolved(b, [z]) == (if Unresolved(b, z) then 1 else 0);
    assert CountUnresolved(b, [y, z]) == (if Unresolved(b, y) then 1 else 0) + CountUnresolved(b, [z]);
  }

  lemma LateRecords()
    ensures QuotaRecords(LATE_BOARD) && NormalAfterModes(LATE_BOARD, LATE_STATE.modeGames)
    ensures SecondShards(LATE_CLAIMS, LATE_BUDGET, LATE_STATE.modeGames) && PurchasesOwnNodes(LATE_CLAIMS)
  {
  }

  lemma LateSeats()
    ensures SeatInv(LATE_BOARD, LATE_BUDGET, LATE_STATE.modeGames)
  {
    hide WithinCaps, CountUnresolved, QuotaRecords, NormalAfterModes, SecondShards, PurchasesOwnNodes;
    LateCaps();
    LateCount();
    LateRecords();
  }

  lemma LateReopens()
    ensures Reopens(LATE_STATE, LATE_REPORT) && !SeatFree(LATE_STATE, LATE_REPORT)
  {
    hide AfterSpecial, CountUnresolved;
    LateCaps();
    LateCount();
    assert WorkerClaim(LATE_CLAIMS, "2.2", "c") == Some(Secondary("c"));
    assert 1 in map[1 := 5] && map[1 := 5][1] > Max(0, Get(map[1 := 0], 1, 0));
    assert Occurrences(["a", "b", "c"][1..][1..], "c") == 1;
  }

  /**
   Two seats: game `a` runs normally, `b` waits for its retry, and `c` was accepted while its second shard runs. One
   normal lease and one unresolved game fit; then the second shard of `c` reserves, and three want two seats.
   */
  lemma LateAcceptanceTakesASeat()
    ensures LeaseInv(LATE_STATE) && LATE_STATE.topology.maxClaims == 2
    ensures SeatsKept(LATE_STATE) && !SeatsKept(Step(LATE_STATE, LATE_REPORT).0)
  {
    hide BoardInv, Step, SeatFree, Reopens, CountUnresolved, NormalRunning, UnavailableCounted;
    LateSeats();
    LateReopens();
    StepSeats(LATE_STATE, LATE_REPORT);
  }
}
