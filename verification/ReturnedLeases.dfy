/**
 What becomes of a game once its lease is given back, over whole histories and by the status the worker reported: open again
 at once, open again after its minute, or shut for the rest of the run.
 */
module ReturnedLeases {
  import opened Base
  import opened CoordinatorTypes
  import opened CoordinatorSteps
  import opened LeaseSafety
  import opened Openings
  import EgressSafety

  /** The request is answered with the lease under `key`. */
  ghost predicate Leases(s: State, r: Request, key: ClaimKey) {
    r.op.Claims? && Step(s, r).1.Lease? && KeyOf(Step(s, r).1.slug, Step(s, r).1.shardIndex) == key
  }

  /** The lease under `key` is given back with a status. */
  ghost predicate Returns(s: State, r: Request, key: ClaimKey) {
    r.op.Done? && r.op.slug == key.slug && UnderLease(s, r) && WorkerClaim(s.board.claims, r.worker, key.slug) == Some(key)
  }

  /** Neither a new lease under `key`, nor another report under it, nor a new run. */
  ghost predicate Quiet(s: State, r: Request, key: ClaimKey) {
    !r.op.Begin? && !Leases(s, r, key) && !Returns(s, r, key)
  }

  // ----- the entry of a lease that was given back -----

  lemma ReturnedEntry(s: State, r: Request, key: ClaimKey)
    requires Returns(s, r, key)
    ensures var claims := Step(s, r).0.board.claims;
      && Step(s, r).1 == Empty
      && key in claims && claims[key].status == r.op.status && claims[key].worker == Some(r.worker)
      && (r.op.status == Retryable ==> claims[key].retryAt == r.now + 60_000)
      && claims[key].specialOnly == s.board.claims[key].specialOnly
  {
    hide AfterSpecial, SyncGame;
  }

  /** An entry after a claim that does not grant it: the same, or marked because its game was accepted while it was vacant. */
  ghost predicate KeptOrMarked(before: map<ClaimKey, Claim>, after: map<ClaimKey, Claim>, accepted: set<Slug>, now: int,
                               key: ClaimKey)
    requires key in before
  {
    key in after
    && (after[key] == before[key]
        || (after[key] == ACCEPTED_CLAIM && key.slug in accepted && Vacant(before[key], now)))
  }

  lemma {:induction false} PassesKeep(b: Board, slugs: seq<Slug>, modeGames: seq<Slug>, accepted: set<Slug>, now: int,
                                      key: ClaimKey)
    requires key in b.claims
    ensures KeptOrMarked(b.claims, PickPrimary(b, slugs, accepted, now).0.claims, accepted, now, key)
    ensures KeptOrMarked(b.claims, PickNormal(b, slugs, modeGames, accepted, now).0.claims, accepted, now, key)
    decreases slugs
  {
    if slugs != [] {
      PassesKeep(b, slugs[1..], modeGames, accepted, now, key);
      if !SkipsPrimary(b, slugs[0], now) && slugs[0] in accepted {
        PassesKeep(AcceptSpecial(b, slugs[0]), slugs[1..], modeGames, accepted, now, key);
      }
      if !SkipsNormal(b, slugs[0], modeGames, now) && slugs[0] in accepted {
        PassesKeep(AcceptNormal(b, slugs[0]), slugs[1..], modeGames, accepted, now, key);
      }
    }
  }

  lemma ScheduleKeepsEntry(s: State, r: Request, accepted: set<Slug>, key: ClaimKey)
    requires key in s.board.claims
    ensures var (s', reply) := Schedule(s, r, accepted);
      (reply.Lease? && KeyOf(reply.slug, reply.shardIndex) == key)
      || KeptOrMarked(s.board.claims, s'.board.claims, accepted, r.now, key)
  {
    hide PickPrimary, PickNormal, PickSecondary, CountUnresolved, Grant, Vacant, RunningKeys, NormalRunning;
    PassesKeep(s.board, s.modeGames, s.modeGames, accepted, r.now, key);
    var (b, primary) := PickPrimary(s.board, s.modeGames, accepted, r.now);
    if primary.Some? {
      EgressSafety.GrantMarks(s.(board := b), r, Primary(primary.value), true, 1);
    } else {
      var second := if s.topology.maxShards < 2 then None else PickSecondary(b, s.modeGames, r.node, r.now);
      if second.Some? {
        EgressSafety.GrantMarks(s.(board := b), r, Secondary(second.value), true, 2);
      } else {
        PassesKeep(b, s.games, s.modeGames, accepted, r.now, key);
        AcceptedIsNotVacant(r.now);
        var (b', normal) := PickNormal(b, s.games, s.modeGames, accepted, r.now);
        if normal.Some? { EgressSafety.GrantMarks(s.(board := b'), r, Primary(normal.value), false, 0); }
      }
    }
  }

  lemma AcceptedIsNotVacant(now: int)
    ensures !Vacant(ACCEPTED_CLAIM, now)
  {
  }

  /** Without a lease or a report under it, an entry that is not running changes only as its game is accepted. */
  lemma EntryKept(s: State, r: Request, key: ClaimKey)
    requires key in s.board.claims && s.board.claims[key].status != Running && Quiet(s, r, key)
    ensures var after := Step(s, r).0.board.claims;
      if r.op.Claims? then KeptOrMarked(s.board.claims, after, r.op.accepted, r.now, key)
      else key in after && after[key] == s.board.claims[key]
  {
    hide Schedule, LeasedStep, Vacant;
    var held := WorkerClaim(s.board.claims, r.worker, SlugOf(r.op));
    if r.op.Claims? {
      ScheduleKeepsEntry(s, r, r.op.accepted, key);
    } else if UnderLease(s, r) {
      LeasedKeepsEntry(s, r, held.value, key);
    }
  }

  lemma LeasedKeepsEntry(s: State, r: Request, held: ClaimKey, key: ClaimKey)
    requires held in s.board.claims && key in s.board.claims && s.board.claims[key].status != Running
    requires r.op.Done? ==> held != key
    ensures var claims := LeasedStep(s, r, held).0.board.claims; key in claims && claims[key] == s.board.claims[key]
  {
    hide ReserveStep, AppendStep, AckStep, PermitStep, AfterSpecial, SyncGame, Throttled, NodeOf, Drop, Evicted;
    OtherOpsClaims(s, r, held);
  }

  /** The stretch between a report under `key` and a later state, without a lease, another report or a new run. */
  ghost predicate Rests(states: seq<State>, rs: seq<Request>, key: ClaimKey, i: nat, j: nat)
    requires Behavior(states, rs)
  {
    && i < j <= |rs| && Returns(states[i], rs[i], key) && rs[i].op.status != Running
    && forall k {:trigger rs[k]} | i < k < |rs| && k < j :: Quiet(states[k], rs[k], key)
  }

  /** At the end of it the entry still says what was reported, unless the game was accepted meanwhile. */
  lemma {:induction false} RestingEntry(states: seq<State>, rs: seq<Request>, key: ClaimKey, i: nat, j: nat)
    requires Behavior(states, rs) && Rests(states, rs, key, i, j)
    ensures key in states[j].board.claims
    ensures var c := states[j].board.claims[key];
      c != ACCEPTED_CLAIM ==>
        c.status == rs[i].op.status && (c.status == Retryable ==> c.retryAt == rs[i].now + 60_000)
    ensures (forall k {:trigger rs[k]} | i < k < |rs| && k < j && rs[k].op.Claims? :: key.slug !in rs[k].op.accepted)
      ==> states[j].board.claims[key] == states[i + 1].board.claims[key]
    decreases j
  {
    hide Step, Quiet, Returns, Vacant;
    ReturnedEntry(states[i], rs[i], key);
    if j > i + 1 {
      assert Rests(states, rs, key, i, j - 1);
      RestingEntry(states, rs, key, i, j - 1);
      EntryKept(states[j - 1], rs[j - 1], key);
    }
  }

  // ----- shut for the rest of the run -----

  lemma VacantIff(c: Claim, now: int)
    ensures Vacant(c, now) <==> Reclaimable(c, now)
  {
  }

  /** Only a vacant entry, or none, is handed out. */
  lemma LeasesVacant(s: State, r: Request, key: ClaimKey)
    requires Leases(s, r, key) && key in s.board.claims
    ensures Vacant(s.board.claims[key], r.now)
  {
    hide Step, ClaimStep, Vacant, PickPrimary, PickNormal, PickSecondary;
    if !Vacant(s.board.claims[key], r.now) {
      ScheduleSkips(s, r, r.op.accepted, key);
      ClaimIsSchedule(s, r);
    }
  }

  lemma ClaimIsSchedule(s: State, r: Request)
    requires r.op.Claims? && Step(s, r).1.Lease?
    ensures Step(s, r).1 == Schedule(s, r, r.op.accepted).1
  {
    hide Schedule;
  }

  lemma ScheduleSkips(s: State, r: Request, accepted: set<Slug>, key: ClaimKey)
    requires key in s.board.claims && !Vacant(s.board.claims[key], r.now)
    ensures var reply := Schedule(s, r, accepted).1; reply.Lease? ==> KeyOf(reply.slug, reply.shardIndex) != key
  {
    hide PickPrimary, PickNormal, PickSecondary, CountUnresolved, Grant, Vacant, RunningKeys, NormalRunning;
    VacantIff(s.board.claims[key], r.now);
    PassesKeep(s.board, s.modeGames, s.modeGames, accepted, r.now, key);
    var (b, primary) := PickPrimary(s.board, s.modeGames, accepted, r.now);
    PickIsOpen(s.board, s.modeGames, accepted, r.now);
    if primary.Some? {
      EgressSafety.GrantMarks(s.(board := b), r, Primary(primary.value), true, 1);
    } else {
      var second := if s.topology.maxShards < 2 then None else PickSecondary(b, s.modeGames, r.node, r.now);
      PickSecondarySound(b, s.modeGames, r.node, r.now);
      if second.Some? {
        EgressSafety.GrantMarks(s.(board := b), r, Secondary(second.value), true, 2);
      } else {
        PassesKeep(b, s.games, s.modeGames, accepted, r.now, key);
        var (b', normal) := PickNormal(b, s.games, s.modeGames, accepted, r.now);
        PickNormalFirst(b, s.games, s.modeGames, accepted, r.now);
        if normal.Some? { EgressSafety.GrantMarks(s.(board := b'), r, Primary(normal.value), false, 0); }
      }
    }
  }

  predicate EndsGame(status: Status) {
    status.Failed? || status.Unavailable? || status.AlreadyAccepted? || status.Other?
  }

  /**
   A lease that is given back as failed, unavailable, accepted or with any status of another name is not handed out again
   in that run, whoever asks, unless the worker reports again under it.
   */
  lemma {:induction false} ShutForTheRun(states: seq<State>, rs: seq<Request>, key: ClaimKey, i: nat, j: nat)
    requires Behavior(states, rs) && i < j < |rs| && Returns(states[i], rs[i], key) && EndsGame(rs[i].op.status)
    requires forall k {:trigger rs[k]} | i < k < |rs| && k < j :: !rs[k].op.Begin? && !Returns(states[k], rs[k], key)
    ensures Rests(states, rs, key, i, j) && !Leases(states[j], rs[j], key)
    decreases j
  {
    hide Step, Leases, Returns;
    forall k {:trigger rs[k]} | i < k < |rs| && k < j ensures Quiet(states[k], rs[k], key) {
      assert rs[k] == rs[k];
      ShutForTheRun(states, rs, key, i, k);
    }
    RestingEntry(states, rs, key, i, j);
    if Leases(states[j], rs[j], key) { LeasesVacant(states[j], rs[j], key); }
  }

  /** A lease that is given back as failed for now is not handed out again before its minute has passed. */
  lemma RetryWaitsAMinute(states: seq<State>, rs: seq<Request>, key: ClaimKey, i: nat, j: nat)
    requires Behavior(states, rs) && Rests(states, rs, key, i, j) && j < |rs| && rs[i].op.status == Retryable
    ensures Leases(states[j], rs[j], key) ==> rs[i].now + 60_000 <= rs[j].now
  {
    hide Step, Leases, Rests;
    RestingEntry(states, rs, key, i, j);
    if Leases(states[j], rs[j], key) { LeasesVacant(states[j], rs[j], key); }
  }

  // ----- open again -----

  lemma {:induction false} FirstExists(slugs: seq<Slug>, p: Slug -> bool, slug: Slug)
    requires slug in slugs && p(slug)
    ensures exists x :: IsFirst(slugs, p, x) && IndexOf(slugs, x) <= IndexOf(slugs, slug)
    decreases slugs
  {
    if p(slugs[0]) {
      assert IsFirst(slugs, p, slugs[0]);
    } else {
      FirstExists(slugs[1..], p, slug);
      var x :| IsFirst(slugs[1..], p, x) && IndexOf(slugs[1..], x) <= IndexOf(slugs[1..], slug);
      FirstIsListed(slugs[1..], p, x);
      LaterFirst(slugs, p, x);
    }
  }

  /** The statuses after which a game is open again at once. */
  predicate Reopens(status: Status) {
    status.Released? || status.ShardComplete? || status.Waiting?
  }

  /** A claim let through from a node that is free for a purchase lease, while purchase rounds of a game are missing. */
  ghost predicate WantsPurchases(s: State, r: Request, slug: Slug) {
    && r.op.Claims? && slug !in r.op.accepted && PassesGates(s, r) && NodeIdle(s, r.node)
    && slug in s.modeGames && MissesTargets(s.board, slug) && !GivenUp(s.board, slug)
  }

  /** A claim that is let through with a seat left and no purchase game open, once a game's purchases are complete. */
  ghost predicate WantsNormalRounds(s: State, r: Request, slug: Slug) {
    && r.op.Claims? && slug !in r.op.accepted && PassesGates(s, r) && NormalSeat(s, r) && NodeShared(s, r)
    && NoneOf(s.modeGames, Firsts(s, r)) && NoneOf(s.modeGames, Seconds(s, r))
    && slug in s.games && (slug in s.modeGames ==> !MissesTargets(s.board, slug))
    && !(exists k | k in s.board.claims && k.slug == slug ::
           s.board.claims[k].status == Running && s.board.claims[k].specialOnly)
  }

  /** The lease is on the game or on one before it in the order. */
  ghost predicate LeasesUpTo(reply: Reply, games: seq<Slug>, slug: Slug, special: bool, shard: nat) {
    exists x :: reply == Lease(x, special, shard) && IndexOf(games, x) <= IndexOf(games, slug)
  }

  lemma OpensNow(s: State, r: Request, slug: Slug)
    requires LeaseInv(s) && WantsPurchases(s, r, slug)
    requires Primary(slug) in s.board.claims ==>
      && Reopens(s.board.claims[Primary(slug)].status)
      && !(HasStatus(s.board, Primary(slug), ShardComplete) && HasStatus(s.board, Secondary(slug), Running))
    ensures LeasesUpTo(Step(s, r).1, s.modeGames, slug, true, 1)
  {
    hide Step, BoardInv, Answered, PassesGates, NodeIdle, MissesTargets, GivenUp;
    GatesAnswer(s, r);
    FirstExists(s.modeGames, Firsts(s, r), slug);
    AnsweredFirst(s, r);
  }

  lemma GatesAnswer(s: State, r: Request)
    requires LeaseInv(s) && r.op.Claims? && PassesGates(s, r)
    ensures Answered(s, r, Step(s, r).1)
  {
    hide Step, BoardInv, Answered, RunningKeys, RunningOn;
    ClaimAnswered(s, r);
  }

  lemma AnsweredFirst(s: State, r: Request)
    requires r.op.Claims? && Answered(s, r, Step(s, r).1) && NodeIdle(s, r.node)
    ensures forall x :: IsFirst(s.modeGames, Firsts(s, r), x) ==> Step(s, r).1 == Lease(x, true, 1)
  {
    hide Step, IsFirst;
  }

  lemma OpensNormalNow(s: State, r: Request, slug: Slug)
    requires LeaseInv(s) && WantsNormalRounds(s, r, slug)
    requires Primary(slug) in s.board.claims ==> Reopens(s.board.claims[Primary(slug)].status)
    ensures LeasesUpTo(Step(s, r).1, s.games, slug, false, 0)
  {
    hide Step, BoardInv, Answered, PassesGates, MissesTargets, NormalSeat, NodeShared, NoneOf;
    GatesAnswer(s, r);
    FirstExists(s.games, Normals(s, r), slug);
    AnsweredNormal(s, r);
  }

  lemma AnsweredNormal(s: State, r: Request)
    requires r.op.Claims? && Answered(s, r, Step(s, r).1)
    requires NoneOf(s.modeGames, Firsts(s, r)) && NoneOf(s.modeGames, Seconds(s, r)) && NormalSeat(s, r) && NodeShared(s, r)
    ensures forall x :: IsFirst(s.games, Normals(s, r), x) ==> Step(s, r).1 == Lease(x, false, 0)
  {
    hide Step, IsFirst, NoneOf, NormalSeat, NodeShared;
  }

  /** The game rests from the report under its first shard on, and does not become accepted. */
  ghost predicate RestsOpen(states: seq<State>, rs: seq<Request>, slug: Slug, i: nat, j: nat)
    requires Behavior(states, rs)
  {
    && Rests(states, rs, Primary(slug), i, j) && Reopens(rs[i].op.status)
    && forall k {:trigger rs[k]} | i < k < |rs| && k < j && rs[k].op.Claims? :: slug !in rs[k].op.accepted
  }

  lemma RestingStatus(states: seq<State>, rs: seq<Request>, slug: Slug, i: nat, j: nat)
    requires Behavior(states, rs) && RestsOpen(states, rs, slug, i, j)
    ensures HasStatus(states[j].board, Primary(slug), rs[i].op.status)
  {
    hide Step, Returns, Quiet;
    ReturnedEntry(states[i], rs[i], Primary(slug));
    RestingEntry(states, rs, Primary(slug), i, j);
  }

  /**
   A purchase lease that was given back: while purchase rounds are missing, a claim that is let through from a free node is
   answered with a purchase lease, on that game or on one before it in the order. Only while its second shard still runs does
   a game whose first one is complete have to wait.
   */
  lemma OpensForPurchases(states: seq<State>, rs: seq<Request>, slug: Slug, i: nat, j: nat)
    requires Behavior(states, rs) && Initial(states[0]) && RestsOpen(states, rs, slug, i, j) && j < |rs|
    requires forall k {:trigger rs[k]} | 0 <= k < |rs| :: GivesBack(rs[k])
    requires WantsPurchases(states[j], rs[j], slug)
    requires rs[i].op.status == ShardComplete ==> !HasStatus(states[j].board, Secondary(slug), Running)
    ensures LeasesUpTo(Step(states[j], rs[j]).1, states[j].modeGames, slug, true, 1)
  {
    hide Step, BoardInv, GivesBack, Rests, WantsPurchases;
    LeasesAt(states, rs, j);
    RestingStatus(states, rs, slug, i, j);
    OpensNow(states[j], rs[j], slug);
  }

  /**
   Once its purchases are complete: a claim that is let through with a seat left, while no purchase game is open, is answered
   with a normal lease, on the game that was given back or on one before it in the order.
   */
  lemma OpensForNormalRounds(states: seq<State>, rs: seq<Request>, slug: Slug, i: nat, j: nat)
    requires Behavior(states, rs) && Initial(states[0]) && RestsOpen(states, rs, slug, i, j) && j < |rs|
    requires forall k {:trigger rs[k]} | 0 <= k < |rs| :: GivesBack(rs[k])
    requires WantsNormalRounds(states[j], rs[j], slug)
    ensures LeasesUpTo(Step(states[j], rs[j]).1, states[j].games, slug, false, 0)
  {
    hide Step, BoardInv, GivesBack, Rests, WantsNormalRounds;
    LeasesAt(states, rs, j);
    RestingStatus(states, rs, slug, i, j);
    OpensNormalNow(states[j], rs[j], slug);
  }
}
