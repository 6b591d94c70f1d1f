/**
 A worker that reserves its rounds before it stores any never meets a quota record without counts, so none of its appends
 fails after writing.
 */
module ReservedAppends {
  import opened Base
  import opened CoordinatorTypes
  import opened CoordinatorSteps
  import opened LeaseSafety
  import opened ReservedSeats
  import RoundFiles

  // ----- what a lease says about the record of its game -----

  ghost predicate HasCounts(b: Board, slug: Slug) {
    slug in b.quotas && b.quotas[slug].frozen.Some?
  }

  /** A purchase lease under which a reservation was made finds counts, and so does a normal lease after purchases. */
  ghost predicate LeaseFindsCounts(b: Board, modeGames: seq<Slug>, key: ClaimKey, reserved: bool) {
    key in b.claims && b.claims[key] != ACCEPTED_CLAIM ==>
      if b.claims[key].specialOnly then key.slug in modeGames && (reserved ==> HasCounts(b, key.slug))
      else key.Primary? && (key.slug in modeGames ==> HasCounts(b, key.slug))
  }

  ghost predicate CountsInv(b: Board, modeGames: seq<Slug>, key: ClaimKey, reserved: bool) {
    && (forall slug | slug in b.quotas :: slug in modeGames)
    && LeaseFindsCounts(b, modeGames, key, reserved)
  }

  // ----- the passes of a claim -----

  lemma {:induction false} PrimaryPassCounts(b: Board, slugs: seq<Slug>, accepted: set<Slug>, now: int, modeGames: seq<Slug>,
                                             key: ClaimKey, reserved: bool)
    requires CountsInv(b, modeGames, key, reserved) && forall slug | slug in slugs :: slug in modeGames
    requires forall slug | slug in slugs && slug in accepted && !SkipsPrimary(b, slug, now) :: Secondary(slug) !in b.claims
    ensures CountsInv(PickPrimary(b, slugs, accepted, now).0, modeGames, key, reserved)
    decreases slugs
  {
    if slugs != [] {
      if SkipsPrimary(b, slugs[0], now) {
        PrimaryPassCounts(b, slugs[1..], accepted, now, modeGames, key, reserved);
      } else if slugs[0] in accepted {
        assert slugs[0] in slugs;
        PrimaryPassCounts(AcceptSpecial(b, slugs[0]), slugs[1..], accepted, now, modeGames, key, reserved);
      }
    }
  }

  lemma {:induction false} NormalPassCounts(b: Board, slugs: seq<Slug>, modeGames: seq<Slug>, accepted: set<Slug>, now: int,
                                            key: ClaimKey, reserved: bool)
    requires CountsInv(b, modeGames, key, reserved)
    ensures CountsInv(PickNormal(b, slugs, modeGames, accepted, now).0, modeGames, key, reserved)
    decreases slugs
  {
    if slugs != [] {
      if SkipsNormal(b, slugs[0], modeGames, now) {
        NormalPassCounts(b, slugs[1..], modeGames, accepted, now, key, reserved);
      } else if slugs[0] in accepted {
        NormalPassCounts(AcceptNormal(b, slugs[0]), slugs[1..], modeGames, accepted, now, key, reserved);
      }
    }
  }

  /** A request that was answered with a lease under `key`. */
  ghost predicate GrantsKey(s: State, r: Request, key: ClaimKey) {
    r.op.Claims? && var reply := Step(s, r).1; reply.Lease? && KeyOf(reply.slug, reply.shardIndex) == key
  }

  lemma GrantCounts(s: State, r: Request, granted: ClaimKey, special: bool, shard: nat, key: ClaimKey, reserved: bool)
    requires CountsInv(s.board, s.modeGames, key, reserved) && granted == KeyOf(granted.slug, shard)
    requires if special then granted.slug in s.modeGames
             else granted.Primary? && (granted.slug in s.modeGames ==> HasCounts(s.board, granted.slug))
    ensures var (s', reply) := Grant(s, r, granted, special, shard);
      CountsInv(s'.board, s.modeGames, key, reserved && !(reply.Lease? && granted == key))
  {
    hide NodeTaken, SpreadsFirst, NextGame, Touch;
  }

  lemma ScheduleCounts(s: State, r: Request, accepted: set<Slug>, key: ClaimKey, reserved: bool)
    requires LeaseInv(s) && CountsInv(s.board, s.modeGames, key, reserved)
    requires r.op == Claims(accepted) && AcceptsAlone(s, r)
    ensures var (s', reply) := Schedule(s, r, accepted);
      CountsInv(s'.board, s.modeGames, key, reserved && !(reply.Lease? && KeyOf(reply.slug, reply.shardIndex) == key))
  {
    hide PickPrimary, PickNormal, CountUnresolved, BoardInv, Grant, CountsInv;
    var (b1, primary) := PickPrimary(s.board, s.modeGames, accepted, r.now);
    PickPrimarySound(s.board, s.modeGames, accepted, r.now, s.topology, s.modeGames);
    PrimaryPassCounts(s.board, s.modeGames, accepted, r.now, s.modeGames, key, reserved);
    var s1 := s.(board := b1);
    if primary.Some? {
      GrantIsFor(s1, r, Primary(primary.value), true, 1);
      GrantCounts(s1, r, Primary(primary.value), true, 1, key, reserved);
    } else {
      PickSecondarySound(b1, s.modeGames, r.node, r.now);
      var secondary := if s.topology.maxShards < 2 then None else PickSecondary(b1, s.modeGames, r.node, r.now);
      if secondary.Some? {
        GrantIsFor(s1, r, Secondary(secondary.value), true, 2);
        GrantCounts(s1, r, Secondary(secondary.value), true, 2, key, reserved);
      } else {
        NormalCounts(s, b1, r, accepted, key, reserved);
      }
    }
  }

  lemma GrantIsFor(s: State, r: Request, key: ClaimKey, special: bool, shard: nat)
    ensures var reply := Grant(s, r, key, special, shard).1;
      reply.Lease? ==> reply.slug == key.slug && reply.shardIndex == shard
  {
    hide NodeTaken, SpreadsFirst, NextGame, Touch;
  }

  lemma NormalCounts(s: State, b: Board, r: Request, accepted: set<Slug>, key: ClaimKey, reserved: bool)
    requires BoardInv(b, s.topology, s.modeGames) && CountsInv(b, s.modeGames, key, reserved)
    ensures var (b', normal) := PickNormal(b, s.games, s.modeGames, accepted, r.now);
      && CountsInv(b', s.modeGames, key, reserved)
      && (normal.Some? ==>
            var (s', reply) := Grant(s.(board := b'), r, Primary(normal.value), false, 0);
            && CountsInv(s'.board, s.modeGames, key, reserved && !(reply.Lease? && Primary(normal.value) == key))
            && (reply.Lease? ==> reply.slug == normal.value && reply.shardIndex == 0))
  {
    hide PickNormal, BoardInv, Grant, CountsInv;
    var (b', normal) := PickNormal(b, s.games, s.modeGames, accepted, r.now);
    PickNormalSound(b, s.games, s.modeGames, accepted, r.now, s.topology);
    NormalPassCounts(b, s.games, s.modeGames, accepted, r.now, key, reserved);
    if normal.Some? {
      NormalMayStart(b', normal.value, s.topology, s.modeGames, r.now);
      GrantIsFor(s.(board := b'), r, Primary(normal.value), false, 0);
      GrantCounts(s.(board := b'), r, Primary(normal.value), false, 0, key, reserved);
    }
  }

  // ----- operations under a lease -----

  /** A reservation that was accepted under `key`. */
  ghost predicate ReservesUnder(s: State, r: Request, key: ClaimKey) {
    r.op.ReserveModes? && UnderLease(s, r) && WorkerClaim(s.board.claims, r.worker, r.op.slug) == Some(key)
    && Step(s, r).1.Targets?
  }

  lemma LoosensCounts(b: Board, b': Board, slug: Slug, modeGames: seq<Slug>, key: ClaimKey, reserved: bool)
    requires CountsInv(b, modeGames, key, reserved) && Loosens(b, b')
    requires b'.quotas.Keys <= b.quotas.Keys + {slug} && slug in modeGames
    ensures CountsInv(b', modeGames, key, reserved)
  {
    if key in b.claims {
      assert Stops(b.claims[key], b'.claims[key]);
      if key.slug in b.quotas { assert KeepsCounts(b.quotas[key.slug], b'.quotas[key.slug]); }
    }
  }

  lemma DoneCounts(s: State, r: Request, held: ClaimKey, status: Status, key: ClaimKey, reserved: bool)
    requires held in s.board.claims && s.board.claims[held].worker.Some? && status != Running
    requires s.board.claims[held].specialOnly ==> held.slug in s.modeGames
    requires CountsInv(s.board, s.modeGames, key, reserved)
    ensures CountsInv(DoneStep(s, r, held, status).0.board, s.modeGames, key, reserved)
  {
    hide AfterSpecial, Finished, SyncGame, CountsInv, Loosens;
    var b' := DoneStep(s, r, held, status).0.board;
    DoneLoosens(s, r, held, status);
    if s.board.claims[held].specialOnly {
      LoosensCounts(s.board, b', held.slug, s.modeGames, key, reserved);
    } else {
      SameQuotas(s.board, b', s.modeGames, key, reserved);
    }
  }

  lemma SameQuotas(b: Board, b': Board, modeGames: seq<Slug>, key: ClaimKey, reserved: bool)
    requires CountsInv(b, modeGames, key, reserved) && Loosens(b, b') && b'.quotas.Keys == b.quotas.Keys
    ensures CountsInv(b', modeGames, key, reserved)
  {
    if key in b.claims {
      assert Stops(b.claims[key], b'.claims[key]);
      if key.slug in b.quotas { assert KeepsCounts(b.quotas[key.slug], b'.quotas[key.slug]); }
    }
  }

  lemma PutCounts(b: Board, slug: Slug, q: Quota, modeGames: seq<Slug>, key: ClaimKey, reserved: bool)
    requires CountsInv(b, modeGames, key, reserved) && q.frozen.Some? && slug in modeGames
    ensures CountsInv(b.(quotas := b.quotas[slug := q]), modeGames, key, reserved || key.slug == slug)
  {
  }

  lemma ReserveCounts(s: State, r: Request, held: ClaimKey, counts: map<Mode, int>, targets: map<Mode, int>, key: ClaimKey,
                      reserved: bool)
    requires held in s.board.claims && (s.board.claims[held].specialOnly ==> held.slug in s.modeGames)
    requires CountsInv(s.board, s.modeGames, key, reserved)
    ensures var (s', reply) := ReserveStep(s, r, held, counts, targets);
      CountsInv(s'.board, s.modeGames, key, reserved || (held == key && reply.Targets?))
  {
    hide ReservationOf, LocalTargets, AllMet, Raised, CountsInv;
    var (s', reply) := ReserveStep(s, r, held, counts, targets);
    if reply.Targets? && s.board.claims[held].specialOnly {
      PutCounts(s.board, held.slug, s'.board.quotas[held.slug], s.modeGames, key, reserved);
      Weaken(s'.board, s.modeGames, key, reserved || key.slug == held.slug, reserved || held == key);
    } else {
      NormalNeedsNone(s.board, s.modeGames, key, reserved);
    }
  }

  lemma Weaken(b: Board, modeGames: seq<Slug>, key: ClaimKey, reserved: bool, less: bool)
    requires CountsInv(b, modeGames, key, reserved) && (less ==> reserved)
    ensures CountsInv(b, modeGames, key, less)
  {
  }

  lemma NormalNeedsNone(b: Board, modeGames: seq<Slug>, key: ClaimKey, reserved: bool)
    requires CountsInv(b, modeGames, key, reserved)
    ensures key in b.claims && !b.claims[key].specialOnly ==> CountsInv(b, modeGames, key, true)
  {
  }

  lemma AppendCounts(s: State, r: Request, slug: Slug, docs: seq<Doc>, key: ClaimKey, reserved: bool)
    requires CountsInv(s.board, s.modeGames, key, reserved)
    ensures CountsInv(AppendStep(s, r, slug, docs).0.board, s.modeGames, key, reserved)
  {
    hide Known, StoreRounds, Commit, Touch, ValidBatch, Credit, AllMet, CountsInv;
    var b' := AppendStep(s, r, slug, docs).0.board;
    if b' != s.board {
      assert slug in s.modeGames by { QuotasOfModeGames(s.board, s.modeGames, key, reserved, slug); }
      PutCounts(s.board, slug, b'.quotas[slug], s.modeGames, key, reserved);
      Weaken(b', s.modeGames, key, reserved || key.slug == slug, reserved);
    }
  }

  lemma QuotasOfModeGames(b: Board, modeGames: seq<Slug>, key: ClaimKey, reserved: bool, slug: Slug)
    requires CountsInv(b, modeGames, key, reserved) && slug in b.quotas
    ensures slug in modeGames
  {
  }

  lemma LeasedCounts(s: State, r: Request, held: ClaimKey, key: ClaimKey, reserved: bool)
    requires WorkerClaim(s.board.claims, r.worker, SlugOf(r.op)) == Some(held) && GivesBack(r) && UnderLease(s, r)
    requires s.board.claims[held].specialOnly ==> held.slug in s.modeGames
    requires CountsInv(s.board, s.modeGames, key, reserved)
    ensures var (s', reply) := LeasedStep(s, r, held);
      && s'.modeGames == s.modeGames
      && CountsInv(s'.board, s.modeGames, key, reserved || (r.op.ReserveModes? && held == key && reply.Targets?))
  {
    hide ReserveStep, DoneStep, AppendStep, ResponseStep, PermitStep, AckStep, CountsInv, ReleaseNode, Loosens;
    LeasedFrame(s, r, held);
    match r.op
    case ReserveModes(slug, counts, targets) => ReserveCounts(s, r, held, counts, targets, key, reserved);
    case Append(slug, docs) => AppendCounts(s, r, slug, docs, key, reserved);
    case Done(_, status) => DoneCounts(s, r, held, status, key, reserved);
    case Response(_, _, _, _, _) =>
      ReleaseLoosens(s.board, EgressOf(s, r));
      ReleaseQuotas(s.board, EgressOf(s, r));
      SameQuotas(s.board, ReleaseNode(s.board, EgressOf(s, r)), s.modeGames, key, reserved);
    case _ =>
  }

  lemma ReleaseQuotas(b: Board, node: Node)
    ensures ReleaseNode(b, node).quotas.Keys == b.quotas.Keys
  {
  }

  // ----- whole runs -----

  /** A reservation was made under the lease that `key` was last granted. */
  ghost function ReservedUnder(states: seq<State>, rs: seq<Request>, key: ClaimKey, n: nat): bool
    requires Behavior(states, rs) && n <= |rs|
    decreases n
  {
    n > 0 && !GrantsKey(states[n - 1], rs[n - 1], key)
    && (ReservesUnder(states[n - 1], rs[n - 1], key) || ReservedUnder(states, rs, key, n - 1))
  }

  lemma StepCounts(s: State, r: Request, key: ClaimKey, reserved: bool, before: bool)
    requires LeaseInv(s) && GivesBack(r) && AcceptsAlone(s, r) && !r.op.Begin?
    requires forall k :: CountsInv(s.board, s.modeGames, k, false)
    requires CountsInv(s.board, s.modeGames, key, before)
    requires reserved == (!GrantsKey(s, r, key) && (ReservesUnder(s, r, key) || before))
    ensures var s' := Step(s, r).0; s'.modeGames == s.modeGames && CountsInv(s'.board, s.modeGames, key, reserved)
  {
    hide BoardInv, CountsInv, Schedule, LeasedStep, AcceptsAlone;
    if r.op.Claims? {
      ScheduleCounts(s, r, r.op.accepted, key, before);
      SameGames(s, r);
    } else if UnderLease(s, r) {
      var held := WorkerClaim(s.board.claims, r.worker, SlugOf(r.op)).value;
      assert CountsInv(s.board, s.modeGames, held, false);
      HeldInModeGames(s.board, s.modeGames, held);
      LeasedCounts(s, r, held, key, before);
    }
  }

  lemma HeldInModeGames(b: Board, modeGames: seq<Slug>, held: ClaimKey)
    requires CountsInv(b, modeGames, held, false) && held in b.claims && b.claims[held].worker.Some?
    ensures b.claims[held].specialOnly ==> held.slug in modeGames
  {
  }

  lemma SameGames(s: State, r: Request)
    requires r.op.Claims?
    ensures Step(s, r).0.modeGames == s.modeGames
  {
    hide PickPrimary, PickSecondary, PickNormal, CountUnresolved, NodeTaken, SpreadsFirst, Touch;
  }

  lemma {:induction false} CountsAt(states: seq<State>, rs: seq<Request>, key: ClaimKey, n: nat)
    requires Behavior(states, rs) && states[0].board == Board(map[], map[]) && n <= |rs|
    requires forall j {:trigger rs[j]} | 0 <= j < |rs| :: GivesBack(rs[j]) && !rs[j].op.Begin?
    requires forall j {:trigger rs[j]} | 0 <= j < |rs| :: AcceptsAlone(states[j], rs[j])
    ensures CountsInv(states[n].board, states[n].modeGames, key, ReservedUnder(states, rs, key, n))
    decreases n
  {
    hide Step, AcceptsAlone, GivesBack, LeaseInv, GrantsKey, ReservesUnder, AcceptedAlone;
    if n > 0 {
      var s, r := states[n - 1], rs[n - 1];
      forall k ensures CountsInv(s.board, s.modeGames, k, false) {
        CountsAt(states, rs, k, n - 1);
        Weaken(s.board, s.modeGames, k, ReservedUnder(states, rs, k, n - 1), false);
      }
      CountsAt(states, rs, key, n - 1);
      AloneAt(states, rs, n - 1);
      StepCounts(s, r, key, ReservedUnder(states, rs, key, n), ReservedUnder(states, rs, key, n - 1));
    }
  }

  /** Every append under a purchase lease follows a reservation under that lease. */
  ghost predicate ReservesFirst(states: seq<State>, rs: seq<Request>, j: nat)
    requires Behavior(states, rs) && j < |rs|
  {
    rs[j].op.Append? && UnderLease(states[j], rs[j]) ==>
      var key := WorkerClaim(states[j].board.claims, rs[j].worker, rs[j].op.slug).value;
      states[j].board.claims[key].specialOnly ==> ReservedUnder(states, rs, key, j)
  }

  /**
   When workers reserve before they store, and no game becomes accepted beside a second shard, every append under a lease
   finds a quota record with counts, or a game that has none to keep.
   */
  lemma ReservedAppendsFindCounts(states: seq<State>, rs: seq<Request>, j: nat)
    requires Behavior(states, rs) && states[0].board == Board(map[], map[]) && j < |rs|
    requires forall i {:trigger rs[i]} | 0 <= i < |rs| :: GivesBack(rs[i]) && !rs[i].op.Begin?
    requires forall i {:trigger rs[i]} | 0 <= i < |rs| :: AcceptsAlone(states[i], rs[i])
    requires ReservesFirst(states, rs, j)
    ensures rs[j].op.Append? && UnderLease(states[j], rs[j]) ==> !RoundFiles.Countless(states[j].board, rs[j].op.slug)
  {
    hide Step, AcceptsAlone, ReservedUnder;
    if rs[j].op.Append? && UnderLease(states[j], rs[j]) {
      CountsAt(states, rs, WorkerClaim(states[j].board.claims, rs[j].worker, rs[j].op.slug).value, j);
    }
  }

  /** So for such workers the unsynced tail of every file stays bounded in the daemon. */
  lemma ReservingKeepsTailBounded(states: seq<State>, rs: seq<Request>, slug: Slug, i: nat)
    requires Behavior(states, rs) && states[0].board == Board(map[], map[]) && i < |states|
    requires forall j {:trigger rs[j]} | 0 <= j < |rs| :: GivesBack(rs[j]) && !rs[j].op.Begin?
    requires forall j {:trigger rs[j]} | 0 <= j < |rs| :: AcceptsAlone(states[j], rs[j]) && ReservesFirst(states, rs, j)
    requires RoundFiles.FilesInv(states[0]) && states[0].daemon && RoundFiles.TailInv(states[0].disk, slug)
    ensures RoundFiles.TailBounded(states[i].disk, slug)
  {
    hide Step, AcceptsAlone, GivesBack, ReservesFirst, RoundFiles.FilesInv, RoundFiles.TailInv;
    forall j {:trigger rs[j]} | 0 <= j < |rs| ensures !RoundFiles.FailsAfterWriting(states[j], rs[j], slug) {
      assert AcceptsAlone(states[j], rs[j]);
      ReservedAppendsFindCounts(states, rs, j);
    }
    RoundFiles.UnsyncedTailBounded(states, rs, slug);
  }

  /**
   The acceptance condition is needed: accepting a game throws its counts away, so a second shard that holds its lease then
   fails after writing, whatever it reserved before.
   */
  lemma AcceptanceLosesCounts(s: State, r: Request, slug: Slug)
    requires r.op.Append? && r.op.slug == slug && RoundFiles.ProperBatch(slug, r.op.docs) && s.owner == Some(r.run)
    requires WorkerClaim(s.board.claims, r.worker, slug) == Some(Secondary(slug))
    requires exists d | d in r.op.docs :: d.hash !in Hashes(RoundFiles.LinesAt(s.disk, slug))
    ensures RoundFiles.FailsAfterWriting(s.(board := AcceptSpecial(s.board, slug)), r, slug)
  {
    hide RoundFiles.ProperBatch, Hashes, RoundFiles.LinesAt;
  }
}
