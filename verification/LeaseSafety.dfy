/**
 Which leases can run together: the global cap, the cap of a node, the shards of one game, and the
 nodes that purchase leases keep to themselves.
 */
module LeaseSafety {
  import opened Base
  import opened CoordinatorTypes
  import opened CoordinatorSteps

  ghost predicate WithinCaps(claims: map<ClaimKey, Claim>, t: Topology) {
    && |RunningKeys(claims)| <= t.maxClaims
    && forall node :: |RunningOn(claims, node)| <= PerNode(t)
  }

  /** Two running leases on one node are both normal. */
  ghost predicate PurchasesOwnNodes(claims: map<ClaimKey, Claim>) {
    forall j, k | RunningAt(claims, j) && RunningAt(claims, k) && j != k && claims[j].node == claims[k].node ::
      !claims[j].specialOnly && !claims[k].specialOnly
  }

  ghost predicate SecondShards(claims: map<ClaimKey, Claim>, t: Topology, modeGames: seq<Slug>) {
    forall slug | Secondary(slug) in claims ::
      Primary(slug) in claims && claims[Secondary(slug)].specialOnly && t.maxShards >= 2 && slug in modeGames
  }

  ghost predicate Settled(b: Board, slug: Slug) {
    Primary(slug) in b.claims && b.claims[Primary(slug)].status == AlreadyAccepted && b.claims[Primary(slug)].worker == None
  }

  ghost predicate QuotaRecord(b: Board, slug: Slug)
    requires slug in b.quotas
  {
    var q := b.quotas[slug];
    && (q.frozen.Some? ==> q.specialComplete == AllMet(q.frozen.value))
    && (q.frozen.None? ==> q.specialComplete == q.accepted)
    && (q.accepted ==> Settled(b, slug))
  }

  ghost predicate QuotaRecords(b: Board) {
    forall slug | slug in b.quotas :: QuotaRecord(b, slug)
  }

  ghost predicate ModesFinished(b: Board, slug: Slug) {
    slug in b.quotas && b.quotas[slug].frozen.Some? && b.quotas[slug].specialComplete
  }

  ghost predicate NormalRuns(b: Board, slug: Slug) {
    RunningAt(b.claims, Primary(slug)) && !b.claims[Primary(slug)].specialOnly
  }

  ghost predicate NormalAfterModes(b: Board, modeGames: seq<Slug>) {
    forall slug | slug in modeGames && NormalRuns(b, slug) ::
      ModesFinished(b, slug) && !RunningAt(b.claims, Secondary(slug))
  }

  ghost predicate BoardInv(b: Board, t: Topology, modeGames: seq<Slug>) {
    && WithinCaps(b.claims, t)
    && (t.fillIdleNormal ==> PurchasesOwnNodes(b.claims))
    && SecondShards(b.claims, t, modeGames)
    && QuotaRecords(b)
    && NormalAfterModes(b, modeGames)
  }

  ghost predicate LeaseInv(s: State) {
    BoardInv(s.board, s.topology, s.modeGames)
  }

  /** The client never reports a lease it gives back as still running. */
  ghost predicate GivesBack(r: Request) {
    r.op.Done? ==> r.op.status != Running
  }

  // ----- changes that start no lease -----

  ghost predicate StartsNothing(before: map<ClaimKey, Claim>, after: map<ClaimKey, Claim>) {
    forall k | RunningAt(after, k) :: k in before && after[k] == before[k]
  }

  lemma CapsKept(before: map<ClaimKey, Claim>, after: map<ClaimKey, Claim>, t: Topology)
    requires WithinCaps(before, t) && StartsNothing(before, after)
    ensures WithinCaps(after, t)
  {
    CardinalityMonotone(RunningKeys(after), RunningKeys(before));
    forall node ensures |RunningOn(after, node)| <= PerNode(t) {
      assert forall k | k in RunningOn(after, node) :: RunningAt(after, k) && k in RunningOn(before, node);
      CardinalityMonotone(RunningOn(after, node), RunningOn(before, node));
    }
  }

  lemma AcceptKeeps(b: Board, slug: Slug, b': Board, t: Topology, modeGames: seq<Slug>)
    requires BoardInv(b, t, modeGames)
    requires !RunningAt(b.claims, Primary(slug))
    requires b' == AcceptSpecial(b, slug) || b' == AcceptNormal(b, slug)
    ensures BoardInv(b', t, modeGames)
    ensures RunningKeys(b'.claims) == RunningKeys(b.claims)
    ensures NormalRunning(b'.claims) == NormalRunning(b.claims)
    ensures forall node :: RunningOn(b'.claims, node) == RunningOn(b.claims, node)
  {
    AcceptStarts(b, slug, b');
    AcceptRecords(b, slug, b', modeGames);
    hide WithinCaps, StartsNothing, QuotaRecords, NormalAfterModes, RunningKeys, NormalRunning, RunningOn;
    CapsKept(b.claims, b'.claims, t);
  }

  lemma AcceptStarts(b: Board, slug: Slug, b': Board)
    requires !RunningAt(b.claims, Primary(slug))
    requires b' == AcceptSpecial(b, slug) || b' == AcceptNormal(b, slug)
    ensures StartsNothing(b.claims, b'.claims)
    ensures RunningKeys(b'.claims) == RunningKeys(b.claims)
    ensures NormalRunning(b'.claims) == NormalRunning(b.claims)
    ensures forall node :: RunningOn(b'.claims, node) == RunningOn(b.claims, node)
  {
  }

  lemma AcceptRecords(b: Board, slug: Slug, b': Board, modeGames: seq<Slug>)
    requires QuotaRecords(b) && NormalAfterModes(b, modeGames) && !RunningAt(b.claims, Primary(slug))
    requires b' == AcceptSpecial(b, slug) || b' == AcceptNormal(b, slug)
    ensures QuotaRecords(b') && NormalAfterModes(b', modeGames)
  {
    forall other | other in b'.quotas ensures QuotaRecord(b', other) {
      if other in b.quotas { assert QuotaRecord(b, other); }
    }
    forall other | other in modeGames && NormalRuns(b', other)
      ensures ModesFinished(b', other) && !RunningAt(b'.claims, Secondary(other))
    {
      assert other != slug && NormalRuns(b, other);
    }
  }

  /** A pass over the purchase games picks the first one it neither skips nor accepts. */
  lemma {:induction false} PickPrimarySound(b: Board, slugs: seq<Slug>, accepted: set<Slug>, now: int, t: Topology,
                                            modeGames: seq<Slug>)
    requires BoardInv(b, t, modeGames)
    ensures var (b', pick) := PickPrimary(b, slugs, accepted, now);
      && BoardInv(b', t, modeGames)
      && RunningKeys(b'.claims) == RunningKeys(b.claims)
      && NormalRunning(b'.claims) == NormalRunning(b.claims)
      && (forall node :: RunningOn(b'.claims, node) == RunningOn(b.claims, node))
      && (pick.Some? ==> pick.value in slugs && pick.value !in accepted && !SkipsPrimary(b', pick.value, now))
      && (forall j | 0 <= j < (if pick.Some? then IndexOf(slugs, pick.value) else |slugs|) ::
            SkipsPrimary(b', slugs[j], now))
    decreases slugs
  {
    if slugs != [] {
      var b1 := if !SkipsPrimary(b, slugs[0], now) && slugs[0] in accepted then AcceptSpecial(b, slugs[0]) else b;
      if b1 != b { AcceptKeeps(b, slugs[0], b1, t, modeGames); }
      if SkipsPrimary(b1, slugs[0], now) {
        PickPrimarySound(b1, slugs[1..], accepted, now, t, modeGames);
        SkippedStaysSkipped(b1, slugs[1..], accepted, now, slugs[0]);
        var (b', pick) := PickPrimary(b, slugs, accepted, now);
        assert (b', pick) == PickPrimary(b1, slugs[1..], accepted, now);
        forall j | 0 <= j < (if pick.Some? then IndexOf(slugs, pick.value) else |slugs|)
          ensures SkipsPrimary(b', slugs[j], now)
        {
          if j > 0 { assert slugs[j] == slugs[1..][j - 1]; }
        }
      }
    }
  }

  /**
   The first pass marks exactly the accepted games before its pick that it would otherwise have picked, and leaves every
   other game's leases and quota alone.
   */
  lemma {:induction false} PickPrimaryMarks(b: Board, slugs: seq<Slug>, accepted: set<Slug>, now: int, slug: Slug)
    ensures var (b', pick) := PickPrimary(b, slugs, accepted, now);
      var passed := if pick.Some? then slugs[..IndexOf(slugs, pick.value)] else slugs;
      && (if slug in passed && slug in accepted && !SkipsPrimary(b, slug, now) then
            && Primary(slug) in b'.claims && b'.claims[Primary(slug)] == ACCEPTED_CLAIM
            && slug in b'.quotas && b'.quotas[slug] == ACCEPTED_QUOTA
          else SameAt(b.claims, b'.claims, Primary(slug)) && SameAt(b.quotas, b'.quotas, slug))
      && SameAt(b.claims, b'.claims, Secondary(slug))
    decreases slugs
  {
    if slugs != [] {
      var b1 := if !SkipsPrimary(b, slugs[0], now) && slugs[0] in accepted then AcceptSpecial(b, slugs[0]) else b;
      if SkipsPrimary(b1, slugs[0], now) {
        PickPrimaryMarks(b1, slugs[1..], accepted, now, slug);
        SkippedStaysSkipped(b1, slugs[1..], accepted, now, slugs[0]);
        PickIsOpen(b1, slugs[1..], accepted, now);
        var pick := PickPrimary(b, slugs, accepted, now).1;
        assert PickPrimary(b, slugs, accepted, now) == PickPrimary(b1, slugs[1..], accepted, now);
        var at := if pick.Some? then IndexOf(slugs[1..], pick.value) else |slugs| - 1;
        assert pick.Some? ==> IndexOf(slugs, pick.value) == at + 1;
        assert slugs[..at + 1] == [slugs[0]] + slugs[1..][..at];
      }
    }
  }

  ghost predicate SameAt<K, V>(before: map<K, V>, after: map<K, V>, k: K) {
    (k in before <==> k in after) && (k in before ==> after[k] == before[k])
  }

  lemma {:induction false} PickIsOpen(b: Board, slugs: seq<Slug>, accepted: set<Slug>, now: int)
    ensures var (b', pick) := PickPrimary(b, slugs, accepted, now);
      pick.Some? ==> pick.value in slugs && pick.value !in accepted && !SkipsPrimary(b', pick.value, now)
    decreases slugs
  {
    if slugs != [] {
      PickIsOpen(b, slugs[1..], accepted, now);
      PickIsOpen(AcceptSpecial(b, slugs[0]), slugs[1..], accepted, now);
    }
  }

  /** The first purchase game that can start, read off the board before the claim. */
  function FirstOpen(b: Board, slugs: seq<Slug>, accepted: set<Slug>, now: int): Option<Slug> {
    if slugs == [] then None
    else if SkipsPrimary(b, slugs[0], now) || slugs[0] in accepted then FirstOpen(b, slugs[1..], accepted, now)
    else Some(slugs[0])
  }

  /** Marking accepted games on the way does not change which game the first pass picks. */
  lemma {:induction false} PickIsFirstOpen(b: Board, slugs: seq<Slug>, accepted: set<Slug>, now: int)
    ensures PickPrimary(b, slugs, accepted, now).1 == FirstOpen(b, slugs, accepted, now)
    decreases slugs
  {
    if slugs != [] {
      var slug, rest := slugs[0], slugs[1..];
      PickIsFirstOpen(b, rest, accepted, now);
      if !SkipsPrimary(b, slug, now) && slug in accepted {
        PickIsFirstOpen(AcceptSpecial(b, slug), rest, accepted, now);
        FirstOpenMarked(b, slug, rest, accepted, now);
      }
    }
  }

  lemma {:induction false} FirstOpenMarked(b: Board, slug: Slug, slugs: seq<Slug>, accepted: set<Slug>, now: int)
    requires slug in accepted
    ensures FirstOpen(AcceptSpecial(b, slug), slugs, accepted, now) == FirstOpen(b, slugs, accepted, now)
    decreases slugs
  {
    if slugs != [] {
      FirstOpenMarked(b, slug, slugs[1..], accepted, now);
      assert slugs[0] != slug ==> SkipsPrimary(AcceptSpecial(b, slug), slugs[0], now) == SkipsPrimary(b, slugs[0], now);
    }
  }

  lemma {:induction false} FirstOpenIs(b: Board, slugs: seq<Slug>, accepted: set<Slug>, now: int)
    ensures var first := FirstOpen(b, slugs, accepted, now);
      && (first.Some? ==> first.value in slugs && first.value !in accepted && !SkipsPrimary(b, first.value, now))
      && forall i | 0 <= i < (if first.Some? then IndexOf(slugs, first.value) else |slugs|) ::
           SkipsPrimary(b, slugs[i], now) || slugs[i] in accepted
    decreases slugs
  {
    if slugs != [] {
      FirstOpenIs(b, slugs[1..], accepted, now);
      var first := FirstOpen(b, slugs, accepted, now);
      forall i | 0 <= i < (if first.Some? then IndexOf(slugs, first.value) else |slugs|)
        ensures SkipsPrimary(b, slugs[i], now) || slugs[i] in accepted
      {
        if i > 0 { assert slugs[i] == slugs[1..][i - 1]; }
      }
    }
  }

  lemma {:induction false} SkippedStaysSkipped(b: Board, slugs: seq<Slug>, accepted: set<Slug>, now: int, slug: Slug)
    requires SkipsPrimary(b, slug, now)
    ensures SkipsPrimary(PickPrimary(b, slugs, accepted, now).0, slug, now)
    decreases slugs
  {
    if slugs != [] {
      if SkipsPrimary(b, slugs[0], now) {
        SkippedStaysSkipped(b, slugs[1..], accepted, now, slug);
      } else if slugs[0] in accepted {
        assert SkipsPrimary(AcceptSpecial(b, slugs[0]), slug, now);
        SkippedStaysSkipped(AcceptSpecial(b, slugs[0]), slugs[1..], accepted, now, slug);
      }
    }
  }

  lemma {:induction false} PickSecondarySound(b: Board, slugs: seq<Slug>, node: Node, now: int)
    ensures var pick := PickSecondary(b, slugs, node, now);
      && (pick.Some? ==> pick.value in slugs && TakesSecondary(b, pick.value, node, now))
      && (forall j | 0 <= j < (if pick.Some? then IndexOf(slugs, pick.value) else |slugs|) ::
            !TakesSecondary(b, slugs[j], node, now))
    decreases slugs
  {
    if slugs != [] && !TakesSecondary(b, slugs[0], node, now) {
      PickSecondarySound(b, slugs[1..], node, now);
      var pick := PickSecondary(b, slugs, node, now);
      forall j | 0 <= j < (if pick.Some? then IndexOf(slugs, pick.value) else |slugs|)
        ensures !TakesSecondary(b, slugs[j], node, now)
      {
        if j > 0 { assert slugs[j] == slugs[1..][j - 1]; }
      }
    }
  }

  lemma {:induction false} PickNormalSound(b: Board, slugs: seq<Slug>, modeGames: seq<Slug>, accepted: set<Slug>,
                                           now: int, t: Topology)
    requires BoardInv(b, t, modeGames)
    ensures var (b', pick) := PickNormal(b, slugs, modeGames, accepted, now);
      && BoardInv(b', t, modeGames)
      && RunningKeys(b'.claims) == RunningKeys(b.claims)
      && NormalRunning(b'.claims) == NormalRunning(b.claims)
      && b'.quotas == b.quotas
      && (forall node :: RunningOn(b'.claims, node) == RunningOn(b.claims, node))
      && (pick.Some? ==> pick.value in slugs && pick.value !in accepted && !SkipsNormal(b', pick.value, modeGames, now))
    decreases slugs
  {
    if slugs != [] {
      if SkipsNormal(b, slugs[0], modeGames, now) {
        PickNormalSound(b, slugs[1..], modeGames, accepted, now, t);
      } else if slugs[0] in accepted {
        AcceptKeeps(b, slugs[0], AcceptNormal(b, slugs[0]), t, modeGames);
        PickNormalSound(AcceptNormal(b, slugs[0]), slugs[1..], modeGames, accepted, now, t);
      }
    }
  }

  /** Every game before the one that the third pass picks is one it leaves alone. */
  lemma {:induction false} PickNormalFirst(b: Board, slugs: seq<Slug>, modeGames: seq<Slug>, accepted: set<Slug>, now: int)
    ensures var (b', pick) := PickNormal(b, slugs, modeGames, accepted, now);
      && (pick.Some? ==> !SkipsNormal(b', pick.value, modeGames, now))
      && forall j | 0 <= j < (if pick.Some? then IndexOf(slugs, pick.value) else |slugs|) ::
           SkipsNormal(b', slugs[j], modeGames, now)
    decreases slugs
  {
    if slugs != [] {
      var b1 := if !SkipsNormal(b, slugs[0], modeGames, now) && slugs[0] in accepted then AcceptNormal(b, slugs[0]) else b;
      if SkipsNormal(b1, slugs[0], modeGames, now) {
        PickNormalFirst(b1, slugs[1..], modeGames, accepted, now);
        SkippedNormalStays(b1, slugs[1..], modeGames, accepted, now, slugs[0]);
        var (b', pick) := PickNormal(b, slugs, modeGames, accepted, now);
        assert (b', pick) == PickNormal(b1, slugs[1..], modeGames, accepted, now);
        forall j | 0 <= j < (if pick.Some? then IndexOf(slugs, pick.value) else |slugs|)
          ensures SkipsNormal(b', slugs[j], modeGames, now)
        {
          if j > 0 { assert slugs[j] == slugs[1..][j - 1]; }
        }
      }
    }
  }

  lemma {:induction false} SkippedNormalStays(b: Board, slugs: seq<Slug>, modeGames: seq<Slug>, accepted: set<Slug>,
                                              now: int, slug: Slug)
    requires SkipsNormal(b, slug, modeGames, now)
    ensures SkipsNormal(PickNormal(b, slugs, modeGames, accepted, now).0, slug, modeGames, now)
    decreases slugs
  {
    if slugs != [] {
      if SkipsNormal(b, slugs[0], modeGames, now) {
        SkippedNormalStays(b, slugs[1..], modeGames, accepted, now, slug);
      } else if slugs[0] in accepted {
        assert SkipsNormal(AcceptNormal(b, slugs[0]), slug, modeGames, now);
        SkippedNormalStays(AcceptNormal(b, slugs[0]), slugs[1..], modeGames, accepted, now, slug);
      }
    }
  }

  // ----- granting a lease -----

  /** What the three passes of a claim have checked about the key they grant. */
  ghost predicate MayStart(b: Board, key: ClaimKey, special: bool, t: Topology, modeGames: seq<Slug>) {
    && !RunningAt(b.claims, key)
    && match key {
         case Primary(slug) =>
           if special then
             slug in modeGames && !Get(b.quotas, slug, NO_QUOTA).specialComplete
           else
             && !RunningAt(b.claims, Secondary(slug))
             && (slug in modeGames ==> ModesFinished(b, slug))
         case Secondary(slug) =>
           && special && slug in modeGames && t.maxShards >= 2 && Primary(slug) in b.claims
           && !Get(b.quotas, slug, NO_QUOTA).specialComplete
           && !(slug in b.quotas && b.quotas[slug].accepted)
       }
  }

  lemma StartCaps(claims: map<ClaimKey, Claim>, key: ClaimKey, c: Claim, node: Node, t: Topology)
    requires WithinCaps(claims, t) && !RunningAt(claims, key) && c.status == Running && c.node == Some(node)
    requires |RunningKeys(claims)| < t.maxClaims && |RunningOn(claims, node)| < PerNode(t)
    ensures WithinCaps(claims[key := c], t)
  {
    var after := claims[key := c];
    assert RunningKeys(after) == RunningKeys(claims) + {key};
    assert RunningOn(after, node) == RunningOn(claims, node) + {key};
    forall other | other != node ensures |RunningOn(after, other)| <= PerNode(t) {
      assert RunningOn(after, other) == RunningOn(claims, other);
    }
  }

  lemma StartOwns(claims: map<ClaimKey, Claim>, key: ClaimKey, c: Claim, node: Node)
    requires PurchasesOwnNodes(claims) && c.node == Some(node) && !NodeTaken(claims, node, c.specialOnly)
    ensures PurchasesOwnNodes(claims[key := c])
  {
    var after := claims[key := c];
    forall j | RunningAt(after, j) && j != key && after[j].node == c.node
      ensures !c.specialOnly && !after[j].specialOnly
    {
      assert j in RunningOn(claims, node);
    }
  }

  lemma StartModes(b: Board, key: ClaimKey, c: Claim, t: Topology, modeGames: seq<Slug>)
    requires BoardInv(b, t, modeGames) && MayStart(b, key, c.specialOnly, t, modeGames)
    requires !Get(b.quotas, key.slug, NO_QUOTA).accepted
    ensures var after := b.(claims := b.claims[key := c]);
      QuotaRecords(after) && NormalAfterModes(after, modeGames) && SecondShards(after.claims, t, modeGames)
  {
    var after := b.(claims := b.claims[key := c]);
    forall slug | slug in after.quotas ensures QuotaRecord(after, slug) {
      assert QuotaRecord(b, slug);
    }
    forall slug | slug in modeGames && NormalRuns(after, slug)
      ensures ModesFinished(after, slug) && !RunningAt(after.claims, Secondary(slug))
    {
      if key.slug != slug || key.Secondary? { assert NormalRuns(b, slug); }
    }
  }

  lemma StartKeeps(s: State, r: Request, key: ClaimKey, special: bool, shard: nat)
    requires LeaseInv(s) && MayStart(s.board, key, special, s.topology, s.modeGames)
    requires !Get(s.board.quotas, key.slug, NO_QUOTA).accepted
    requires |RunningKeys(s.board.claims)| < s.topology.maxClaims
    requires |RunningOn(s.board.claims, r.node)| < PerNode(s.topology)
    ensures LeaseInv(Grant(s, r, key, special, shard).0)
  {
    var c := NewClaim(r, special, shard);
    StartCaps(s.board.claims, key, c, r.node, s.topology);
    StartModes(s.board, key, c, s.topology, s.modeGames);
    if s.topology.fillIdleNormal && !NodeTaken(s.board.claims, r.node, special) {
      StartOwns(s.board.claims, key, c, r.node);
    }
  }

  lemma ScheduleKeeps(s: State, r: Request, accepted: set<Slug>)
    requires LeaseInv(s)
    requires |RunningKeys(s.board.claims)| < s.topology.maxClaims
    requires |RunningOn(s.board.claims, r.node)| < PerNode(s.topology)
    ensures LeaseInv(Schedule(s, r, accepted).0)
  {
    hide PickPrimary, PickNormal, PickSecondary, CountUnresolved, Grant;
    var (b1, primary) := PickPrimary(s.board, s.modeGames, accepted, r.now);
    PickPrimarySound(s.board, s.modeGames, accepted, r.now, s.topology, s.modeGames);
    var s1 := s.(board := b1);
    if primary.Some? {
      assert primary.value in b1.quotas ==> QuotaRecord(b1, primary.value);
      StartKeeps(s1, r, Primary(primary.value), true, 1);
    } else {
      PickSecondarySound(b1, s.modeGames, r.node, r.now);
      var secondary := if s.topology.maxShards < 2 then None else PickSecondary(b1, s.modeGames, r.node, r.now);
      if secondary.Some? {
        assert secondary.value in b1.quotas ==> QuotaRecord(b1, secondary.value);
        StartKeeps(s1, r, Secondary(secondary.value), true, 2);
      } else {
        PickNormalSound(b1, s.games, s.modeGames, accepted, r.now, s.topology);
        var (b2, normal) := PickNormal(b1, s.games, s.modeGames, accepted, r.now);
        if normal.Some? {
          NormalMayStart(b2, normal.value, s.topology, s.modeGames, r.now);
          StartKeeps(s.(board := b2), r, Primary(normal.value), false, 0);
        }
      }
    }
  }

  lemma NormalMayStart(b: Board, slug: Slug, t: Topology, modeGames: seq<Slug>, now: int)
    requires BoardInv(b, t, modeGames) && !SkipsNormal(b, slug, modeGames, now)
    ensures MayStart(b, Primary(slug), false, t, modeGames)
    ensures !Get(b.quotas, slug, NO_QUOTA).accepted
  {
    assert slug in b.quotas ==> QuotaRecord(b, slug);
  }

  // ----- quota changes -----

  lemma {:induction false} CreditGrows(f: Frozen, worker: Worker, docs: seq<Doc>)
    ensures Credit(f, worker, docs).targets == f.targets
    ensures forall m :: Get(f.counts, m, 0) <= Get(Credit(f, worker, docs).counts, m, 0)
    decreases docs
  {
    if docs != [] {
      CreditGrows(CreditOne(f, worker, docs[0].buy), worker, docs[1..]);
    }
  }

  /** A quota update that keeps the targets, lowers no count and recomputes completeness. */
  ghost predicate Advances(before: Quota, after: Quota) {
    && after.frozen.Some?
    && after.specialComplete == AllMet(after.frozen.value)
    && after.accepted == before.accepted
    && (before.frozen.Some? ==>
          && after.frozen.value.targets == before.frozen.value.targets
          && forall m :: Get(before.frozen.value.counts, m, 0) <= Get(after.frozen.value.counts, m, 0))
  }

  lemma AdvanceKeeps(b: Board, slug: Slug, q: Quota, t: Topology, modeGames: seq<Slug>)
    requires BoardInv(b, t, modeGames) && Advances(Get(b.quotas, slug, NO_QUOTA), q)
    ensures BoardInv(b.(quotas := b.quotas[slug := q]), t, modeGames)
  {
    var b' := b.(quotas := b.quotas[slug := q]);
    forall other | other in b'.quotas ensures QuotaRecord(b', other) {
      if other in b.quotas { assert QuotaRecord(b, other); }
    }
    forall other | other in modeGames && NormalRuns(b', other)
      ensures ModesFinished(b', other) && !RunningAt(b'.claims, Secondary(other))
    {
      assert NormalRuns(b, other);
      assert QuotaRecord(b, other);
    }
  }

  // ----- giving leases back -----

  /** A lease that is left alone, or one that stops and was not settled for good. */
  ghost predicate Stops(before: Claim, after: Claim) {
    after == before
    || (&& after.status != Running && after.specialOnly == before.specialOnly
        && (before.worker.Some? || before.status == Running))
  }

  ghost predicate KeepsCounts(before: Quota, after: Quota) {
    && after.accepted == before.accepted && after.specialComplete == before.specialComplete
    && after.frozen.Some? == before.frozen.Some?
    && (after.frozen.Some? ==>
          && after.frozen.value.targets == before.frozen.value.targets
          && after.frozen.value.counts == before.frozen.value.counts)
  }

  ghost predicate Loosens(b: Board, b': Board) {
    && b'.claims.Keys == b.claims.Keys
    && (forall k | k in b.claims :: Stops(b.claims[k], b'.claims[k]))
    && b.quotas.Keys <= b'.quotas.Keys
    && forall slug | slug in b'.quotas :: KeepsCounts(Get(b.quotas, slug, NO_QUOTA), b'.quotas[slug])
  }

  lemma LoosensKeeps(b: Board, b': Board, t: Topology, modeGames: seq<Slug>)
    requires BoardInv(b, t, modeGames) && Loosens(b, b')
    ensures BoardInv(b', t, modeGames)
  {
    assert StartsNothing(b.claims, b'.claims);
    CapsKept(b.claims, b'.claims, t);
    forall slug | slug in b'.quotas ensures QuotaRecord(b', slug) {
      assert KeepsCounts(Get(b.quotas, slug, NO_QUOTA), b'.quotas[slug]);
      if slug in b.quotas { assert QuotaRecord(b, slug); }
    }
    forall slug | slug in modeGames && NormalRuns(b', slug)
      ensures ModesFinished(b', slug) && !RunningAt(b'.claims, Secondary(slug))
    {
      assert NormalRuns(b, slug);
      assert KeepsCounts(b.quotas[slug], b'.quotas[slug]);
    }
    SecondShardsKept(b, b', t, modeGames);
  }

  lemma SecondShardsKept(b: Board, b': Board, t: Topology, modeGames: seq<Slug>)
    requires SecondShards(b.claims, t, modeGames) && Loosens(b, b')
    ensures SecondShards(b'.claims, t, modeGames)
  {
    forall slug | Secondary(slug) in b'.claims ensures b'.claims[Secondary(slug)].specialOnly {
      assert Stops(b.claims[Secondary(slug)], b'.claims[Secondary(slug)]);
    }
  }

  lemma ReserveKeeps(s: State, r: Request, key: ClaimKey, counts: map<Mode, int>, targets: map<Mode, int>)
    requires LeaseInv(s) && key in s.board.claims
    ensures LeaseInv(ReserveStep(s, r, key, counts, targets).0)
  {
    hide BoardInv, LocalTargets, ReservationOf;
    var s' := ReserveStep(s, r, key, counts, targets).0;
    if s'.board != s.board {
      AdvanceKeeps(s.board, key.slug, s'.board.quotas[key.slug], s.topology, s.modeGames);
    }
  }

  lemma AppendKeeps(s: State, r: Request, slug: Slug, docs: seq<Doc>)
    requires LeaseInv(s)
    ensures LeaseInv(AppendStep(s, r, slug, docs).0)
  {
    hide BoardInv, Touch, StoreRounds, Commit, ValidBatch;
    var s' := AppendStep(s, r, slug, docs).0;
    if s'.board != s.board {
      var added := Fresh(docs, Known(s.disk, slug, s.daemon));
      CreditGrows(s.board.quotas[slug].frozen.value, r.worker, added);
      AdvanceKeeps(s.board, slug, CreditQuota(s.board.quotas[slug], r.worker, added), s.topology, s.modeGames);
    }
  }

  lemma DoneLoosens(s: State, r: Request, key: ClaimKey, status: Status)
    requires key in s.board.claims && s.board.claims[key].worker.Some? && status != Running
    ensures Loosens(s.board, DoneStep(s, r, key, status).0.board)
  {
    hide SyncGame, AfterSpecial, KeepsCounts;
    var b' := DoneStep(s, r, key, status).0.board;
    forall k | k in s.board.claims ensures Stops(s.board.claims[k], b'.claims[k]) {
    }
    var before := Get(s.board.quotas, key.slug, NO_QUOTA);
    AfterSpecialKeeps(before, s.board.claims[key], r, status, s.topology.maxShards);
    forall slug | slug in b'.quotas ensures KeepsCounts(Get(s.board.quotas, slug, NO_QUOTA), b'.quotas[slug]) {
      SameCounts(Get(s.board.quotas, slug, NO_QUOTA));
    }
  }

  lemma AfterSpecialKeeps(q: Quota, c: Claim, r: Request, status: Status, maxShards: pos)
    ensures KeepsCounts(q, AfterSpecial(q, c, r, status, maxShards))
  {
  }

  lemma SameCounts(q: Quota)
    ensures KeepsCounts(q, q)
  {
  }

  lemma DoneKeeps(s: State, r: Request, key: ClaimKey, status: Status)
    requires LeaseInv(s) && key in s.board.claims && s.board.claims[key].worker.Some? && status != Running
    ensures LeaseInv(DoneStep(s, r, key, status).0)
  {
    hide BoardInv, Loosens;
    DoneLoosens(s, r, key, status);
    LoosensKeeps(s.board, DoneStep(s, r, key, status).0.board, s.topology, s.modeGames);
  }

  lemma ReleaseLoosens(b: Board, node: Node)
    ensures Loosens(b, ReleaseNode(b, node))
  {
    var b' := ReleaseNode(b, node);
    forall k | k in b.claims ensures Stops(b.claims[k], b'.claims[k]) {
    }
    forall slug | slug in b'.quotas ensures KeepsCounts(Get(b.quotas, slug, NO_QUOTA), b'.quotas[slug]) {
    }
  }

  lemma ResponseKeeps(s: State, r: Request, slug: Slug, key: RequestKey, outcome: Outcome, usable: Option<bool>,
                      retryAfter: RetryAfter)
    requires LeaseInv(s)
    ensures LeaseInv(ResponseStep(s, r, slug, key, outcome, usable, retryAfter).0)
  {
    hide BoardInv, Throttled, ReleaseNode, Loosens;
    ReleaseLoosens(s.board, EgressOf(s, r));
    LoosensKeeps(s.board, ReleaseNode(s.board, EgressOf(s, r)), s.topology, s.modeGames);
  }

  lemma BoardOpKeeps(s: State, r: Request, key: ClaimKey)
    requires LeaseInv(s) && GivesBack(r) && (r.op.ReserveModes? || r.op.Append? || r.op.Done?)
    requires key in s.board.claims && s.board.claims[key].worker.Some?
    ensures LeaseInv(LeasedStep(s, r, key).0)
  {
    match r.op
    case ReserveModes(slug, counts, targets) => ReserveKeeps(s, r, key, counts, targets);
    case Append(slug, docs) => AppendKeeps(s, r, slug, docs);
    case Done(slug, status) => DoneKeeps(s, r, key, status);
  }

  lemma GateOpKeeps(s: State, r: Request, key: ClaimKey)
    requires LeaseInv(s) && !(r.op.ReserveModes? || r.op.Append? || r.op.Done?) && key in s.board.claims
    ensures LeaseInv(LeasedStep(s, r, key).0)
  {
    if r.op.Response? {
      ResponseKeeps(s, r, r.op.slug, r.op.key, r.op.outcome, r.op.usable, r.op.retryAfter);
    }
  }

  lemma ClaimKeeps(s: State, r: Request, accepted: set<Slug>)
    requires LeaseInv(s)
    ensures LeaseInv(ClaimStep(s, r, accepted).0)
  {
    if |RunningKeys(s.board.claims)| < s.topology.maxClaims
       && |RunningOn(s.board.claims, r.node)| < PerNode(s.topology) {
      ScheduleKeeps(s, r, accepted);
    }
  }

  lemma EmptyBoard(t: Topology, modeGames: seq<Slug>)
    ensures BoardInv(Board(map[], map[]), t, modeGames)
  {
    assert RunningKeys(map[]) == {};
    assert forall node :: RunningOn(map[], node) == {};
  }

  lemma BeginKeeps(s: State, r: Request)
    requires LeaseInv(s) && r.op.Begin?
    ensures LeaseInv(BeginStep(s, r).0)
  {
    var s' := BeginStep(s, r).0;
    EmptyBoard(s'.topology, s'.modeGames);
  }

  lemma StepKeepsLeases(s: State, r: Request)
    requires LeaseInv(s) && GivesBack(r)
    ensures LeaseInv(Step(s, r).0)
  {
    hide BeginStep, ClaimStep, LeasedStep;
    var key := WorkerClaim(s.board.claims, r.worker, SlugOf(r.op));
    if r.op.Begin? {
      BeginKeeps(s, r);
    } else if r.op.Claims? {
      ClaimKeeps(s, r, r.op.accepted);
    } else if key.Some? {
      if r.op.ReserveModes? || r.op.Append? || r.op.Done? {
        BoardOpKeeps(s, r, key.value);
      } else {
        GateOpKeeps(s, r, key.value);
      }
    }
  }

  lemma {:induction false} LeasesAt(states: seq<State>, rs: seq<Request>, i: nat)
    requires Behavior(states, rs) && Initial(states[0]) && i < |states|
    requires forall j {:trigger rs[j]} | 0 <= j < |rs| :: GivesBack(rs[j])
    ensures LeaseInv(states[i])
    decreases i
  {
    if i == 0 {
      EmptyBoard(states[0].topology, states[0].modeGames);
    } else {
      LeasesAt(states, rs, i - 1);
      StepKeepsLeases(states[i - 1], rs[i - 1]);
    }
  }

  function ShardsOf(claims: map<ClaimKey, Claim>, slug: Slug): set<ClaimKey> {
    set k | k in {Primary(slug), Secondary(slug)} && RunningAt(claims, k)
  }

  /**
   Whatever requests arrive, in whatever order and from whichever workers: the running leases respect the
   global cap and the cap of each node, a game has at most `maxShards` of them, and no game is collected
   normally and for purchases at the same time.
   */
  lemma LeaseSafety(states: seq<State>, rs: seq<Request>, i: nat, node: Node, slug: Slug)
    requires Behavior(states, rs) && Initial(states[0]) && i < |states|
    requires forall j {:trigger rs[j]} | 0 <= j < |rs| :: GivesBack(rs[j])
    ensures var s := states[i]; var claims := s.board.claims;
      && |RunningKeys(claims)| <= s.topology.maxClaims
      && |RunningOn(claims, node)| <= Max(1, CeilDiv(s.topology.maxClaims, s.topology.nodes))
      && |ShardsOf(claims, slug)| <= Min(2, s.topology.maxShards)
      && !exists j, k | j in ShardsOf(claims, slug) && k in ShardsOf(claims, slug) ::
           claims[j].specialOnly && !claims[k].specialOnly
  {
    hide Step;
    LeasesAt(states, rs, i);
    var s := states[i];
    CardinalityMonotone(ShardsOf(s.board.claims, slug), {Primary(slug), Secondary(slug)});
    if Secondary(slug) !in s.board.claims {
      CardinalityMonotone(ShardsOf(s.board.claims, slug), {Primary(slug)});
    }
  }

  /**
   Purchase games come first: a second shard starts only when no purchase game waits for its first one, and a
   normal lease only when none waits for either. Within each kind the first game of the order that can start wins.
   */
  lemma GrantOrder(s: State, r: Request, accepted: set<Slug>)
    requires LeaseInv(s) && Schedule(s, r, accepted).1.Lease?
    ensures var (s', reply) := Schedule(s, r, accepted);
      var b := PickPrimary(s.board, s.modeGames, accepted, r.now).0;
      var b' := PickNormal(b, s.games, s.modeGames, accepted, r.now).0;
      && reply.slug in s.games + s.modeGames
      && (reply.shardIndex == 1 <==> FirstOpen(s.board, s.modeGames, accepted, r.now).Some?)
      && (reply.shardIndex == 1 ==>
            && FirstOpen(s.board, s.modeGames, accepted, r.now) == Some(reply.slug)
            && reply.slug !in accepted && !SkipsPrimary(s.board, reply.slug, r.now))
      && (forall i | 0 <= i < (if reply.shardIndex == 1 then IndexOf(s.modeGames, reply.slug) else |s.modeGames|) ::
            SkipsPrimary(b, s.modeGames[i], r.now))
      && (reply.shardIndex == 2 ==>
            && TakesSecondary(b, reply.slug, r.node, r.now)
            && forall i | 0 <= i < IndexOf(s.modeGames, reply.slug) :: !TakesSecondary(b, s.modeGames[i], r.node, r.now))
      && (!reply.specialOnly ==>
            && (s.topology.maxShards >= 2 ==>
                  forall i | 0 <= i < |s.modeGames| :: !TakesSecondary(b, s.modeGames[i], r.node, r.now))
            && !SkipsNormal(b', reply.slug, s.modeGames, r.now)
            && forall i | 0 <= i < IndexOf(s.games, reply.slug) :: SkipsNormal(b', s.games[i], s.modeGames, r.now))
  {
    hide PickPrimary, PickNormal, PickSecondary, SkipsPrimary, SkipsNormal, TakesSecondary, BoardInv, NodeTaken,
      SpreadsFirst, CountUnresolved, Touch, NextGame;
    var b := PickPrimary(s.board, s.modeGames, accepted, r.now).0;
    PickPrimarySound(s.board, s.modeGames, accepted, r.now, s.topology, s.modeGames);
    PickIsFirstOpen(s.board, s.modeGames, accepted, r.now);
    FirstOpenIs(s.board, s.modeGames, accepted, r.now);
    PickSecondarySound(b, s.modeGames, r.node, r.now);
    PickNormalSound(b, s.games, s.modeGames, accepted, r.now, s.topology);
    PickNormalFirst(b, s.games, s.modeGames, accepted, r.now);
  }

  /** With `fillIdleNormal`, a node that runs a purchase lease runs nothing else. */
  lemma PurchaseLeasesOwnTheirNode(states: seq<State>, rs: seq<Request>, i: nat, j: ClaimKey, k: ClaimKey)
    requires Behavior(states, rs) && Initial(states[0]) && i < |states|
    requires forall n {:trigger rs[n]} | 0 <= n < |rs| :: GivesBack(rs[n])
    requires states[i].topology.fillIdleNormal
    requires j != k && RunningAt(states[i].board.claims, j) && RunningAt(states[i].board.claims, k)
    ensures var claims := states[i].board.claims;
      && (claims[j].specialOnly || claims[k].specialOnly ==> claims[j].node != claims[k].node)
      && (j.slug == k.slug ==> claims[j].node != claims[k].node)
  {
    hide Step;
    LeasesAt(states, rs, i);
  }

  // ----- shards on one node -----

  ghost predicate ShardsApart(b: Board, slug: Slug) {
    RunningAt(b.claims, Primary(slug)) && RunningAt(b.claims, Secondary(slug)) ==>
      b.claims[Primary(slug)].node != b.claims[Secondary(slug)].node
  }

  ghost predicate AllApart(s: State) {
    forall slug :: ShardsApart(s.board, slug)
  }

  /** The node has room for one more of `maxClaims` leases spread evenly over the nodes; an idle node always has. */
  ghost predicate NodeHasRoom(s: State, node: Node) {
    var here := |RunningOn(s.board.claims, node)|;
    here == 0 || here * s.topology.nodes < s.topology.maxClaims
  }

  /** What a claim has to get past before any game is looked at, all of it known beforehand. */
  ghost predicate PassesGates(s: State, r: Request) {
    && s.owner == Some(r.run) && Unhalted(s, r.node)
    && r.now < s.deadline && s.gate.until < s.deadline && s.gate.until <= r.now
    && |RunningKeys(s.board.claims)| < s.topology.maxClaims && NodeHasRoom(s, r.node)
    && s.nextClaimAt <= r.now
  }

  lemma NodeShareIff(k: nat, t: Topology)
    ensures k < PerNode(t) <==> k == 0 || k * t.nodes < t.maxClaims
  {
    var n: int, c: int := t.nodes, t.maxClaims;
    var q, m := (c + n - 1) / n, (c + n - 1) % n;
    assert c + n - 1 == q * n + m;
    assert (k + 1) * n == k * n + n;
    if k < q { MulMonotone(k + 1, q, n); } else { MulMonotone(q, k, n); }
  }

  /**
   The claim is let through, nothing reserves the node, and the second shard of the first purchase game that can start
   runs on the node the claim comes from.
   */
  ghost predicate JoinsSecond(s: State, r: Request) {
    && r.op.Claims? && PassesGates(s, r)
    && !(s.topology.fillIdleNormal && NodeTaken(s.board.claims, r.node, true))
    && var first := FirstOpen(s.board, s.modeGames, r.op.accepted, r.now);
       first.Some? && RunningAt(s.board.claims, Secondary(first.value))
       && s.board.claims[Secondary(first.value)].node == Some(r.node)
  }

  lemma StartsNothingApart(b: Board, b': Board)
    requires StartsNothing(b.claims, b'.claims) && forall slug :: ShardsApart(b, slug)
    ensures forall slug :: ShardsApart(b', slug)
  {
    forall slug ensures ShardsApart(b', slug) {
      assert ShardsApart(b, slug);
    }
  }

  lemma GrantApart(s: State, r: Request, key: ClaimKey, special: bool, shard: nat)
    requires AllApart(s) && Grant(s, r, key, special, shard).1.Lease?
    ensures AllApart(Grant(s, r, key, special, shard).0) <==>
      var other := if key.Primary? then Secondary(key.slug) else Primary(key.slug);
      !(RunningAt(s.board.claims, other) && s.board.claims[other].node == Some(r.node))
  {
    hide NodeTaken, SpreadsFirst, Touch, NextGame;
    var s' := Grant(s, r, key, special, shard).0;
    var other := if key.Primary? then Secondary(key.slug) else Primary(key.slug);
    forall slug | slug != key.slug ensures ShardsApart(s'.board, slug) {
      assert ShardsApart(s.board, slug);
    }
    assert ShardsApart(s'.board, key.slug)
      <==> !(RunningAt(s.board.claims, other) && s.board.claims[other].node == Some(r.node));
  }

  lemma PassesStartNothing(b: Board, slugs: seq<Slug>, games: seq<Slug>, modeGames: seq<Slug>, accepted: set<Slug>, now: int)
    ensures var b1 := PickPrimary(b, slugs, accepted, now).0; var b2 := PickNormal(b1, games, modeGames, accepted, now).0;
      StartsNothing(b.claims, b1.claims) && StartsNothing(b.claims, b2.claims)
  {
    hide PickPrimary, PickNormal, StartsNothing;
    PrimaryStartsNothing(b, slugs, accepted, now);
    var b1 := PickPrimary(b, slugs, accepted, now).0;
    NormalStartsNothing(b1, games, modeGames, accepted, now);
    StartsTransitive(b.claims, b1.claims, PickNormal(b1, games, modeGames, accepted, now).0.claims);
  }

  lemma StartsTransitive(a: map<ClaimKey, Claim>, b: map<ClaimKey, Claim>, c: map<ClaimKey, Claim>)
    requires StartsNothing(a, b) && StartsNothing(b, c)
    ensures StartsNothing(a, c)
  {
    forall k | RunningAt(c, k) ensures RunningAt(b, k) {
    }
  }

  lemma {:induction false} PrimaryStartsNothing(b: Board, slugs: seq<Slug>, accepted: set<Slug>, now: int)
    ensures StartsNothing(b.claims, PickPrimary(b, slugs, accepted, now).0.claims)
    decreases slugs
  {
    if slugs != [] {
      PrimaryStartsNothing(b, slugs[1..], accepted, now);
      PrimaryStartsNothing(AcceptSpecial(b, slugs[0]), slugs[1..], accepted, now);
    }
  }

  lemma {:induction false} NormalStartsNothing(b: Board, slugs: seq<Slug>, modeGames: seq<Slug>, accepted: set<Slug>,
                                               now: int)
    ensures StartsNothing(b.claims, PickNormal(b, slugs, modeGames, accepted, now).0.claims)
    decreases slugs
  {
    if slugs != [] {
      NormalStartsNothing(b, slugs[1..], modeGames, accepted, now);
      NormalStartsNothing(AcceptNormal(b, slugs[0]), slugs[1..], modeGames, accepted, now);
    }
  }

  lemma ScheduleApart(s: State, r: Request, accepted: set<Slug>)
    requires LeaseInv(s) && AllApart(s)
    ensures AllApart(Schedule(s, r, accepted).0) <==>
      var first := FirstOpen(s.board, s.modeGames, accepted, r.now);
      !(&& first.Some? && !(s.topology.fillIdleNormal && NodeTaken(s.board.claims, r.node, true))
        && RunningAt(s.board.claims, Secondary(first.value))
        && s.board.claims[Secondary(first.value)].node == Some(r.node))
  {
    hide PickPrimary, PickNormal, PickSecondary, SkipsPrimary, SkipsNormal, BoardInv, Grant, CountUnresolved, AllApart,
      StartsNothing, FirstOpen;
    var (b1, primary) := PickPrimary(s.board, s.modeGames, accepted, r.now);
    PickIsFirstOpen(s.board, s.modeGames, accepted, r.now);
    PickPrimarySound(s.board, s.modeGames, accepted, r.now, s.topology, s.modeGames);
    PassesStartNothing(s.board, s.modeGames, s.games, s.modeGames, accepted, r.now);
    BoardApart(s, b1);
    var s1 := s.(board := b1);
    if primary.Some? {
      PickPrimaryMarks(s.board, s.modeGames, accepted, r.now, primary.value);
      GrantApartOr(s1, r, Primary(primary.value), true, 1);
      assert NodeTaken(b1.claims, r.node, true) == NodeTaken(s.board.claims, r.node, true);
    } else {
      PickSecondarySound(b1, s.modeGames, r.node, r.now);
      var secondary := if s.topology.maxShards < 2 then None else PickSecondary(b1, s.modeGames, r.node, r.now);
      if secondary.Some? {
        GrantApartOr(s1, r, Secondary(secondary.value), true, 2);
      } else {
        PickNormalSound(b1, s.games, s.modeGames, accepted, r.now, s.topology);
        var (b2, normal) := PickNormal(b1, s.games, s.modeGames, accepted, r.now);
        BoardApart(s, b2);
        if normal.Some? {
          NormalMayStart(b2, normal.value, s.topology, s.modeGames, r.now);
          GrantApartOr(s.(board := b2), r, Primary(normal.value), false, 0);
        }
      }
    }
  }

  lemma BoardApart(s: State, b: Board)
    requires AllApart(s) && StartsNothing(s.board.claims, b.claims)
    ensures AllApart(s.(board := b))
  {
    StartsNothingApart(s.board, b);
  }

  lemma GrantApartOr(s: State, r: Request, key: ClaimKey, special: bool, shard: nat)
    requires AllApart(s)
    ensures var (s', reply) := Grant(s, r, key, special, shard);
      var other := if key.Primary? then Secondary(key.slug) else Primary(key.slug);
      && (reply.Lease? ==> reply.slug == key.slug && reply.shardIndex == shard)
      && (special ==> (reply.Lease? <==> !(s.topology.fillIdleNormal && NodeTaken(s.board.claims, r.node, true))))
      && (AllApart(s') <==>
            !(reply.Lease? && RunningAt(s.board.claims, other) && s.board.claims[other].node == Some(r.node)))
  {
    hide NodeTaken, SpreadsFirst, Touch, NextGame, AllApart;
    if Grant(s, r, key, special, shard).1.Lease? { GrantApart(s, r, key, special, shard); }
  }

  lemma LeasedStartsNothing(s: State, r: Request, key: ClaimKey)
    requires GivesBack(r) && key in s.board.claims && s.board.claims[key].worker.Some?
    ensures StartsNothing(s.board.claims, LeasedStep(s, r, key).0.board.claims)
  {
    hide ReserveStep, AppendStep, AckStep, PermitStep, DoneStep, Throttled, ReleaseNode, KeepsCounts;
    if r.op.Done? { DoneLoosens(s, r, key, r.op.status); }
    ReleaseLoosens(s.board, EgressOf(s, r));
    OtherOpsClaims(s, r, key);
  }

  lemma OtherOpsClaims(s: State, r: Request, key: ClaimKey)
    requires key in s.board.claims
    ensures r.op.ReserveModes? || r.op.Append? || r.op.Ack? || r.op.Permits? ==>
      LeasedStep(s, r, key).0.board.claims == s.board.claims
  {
    hide Reserved, Known, Fresh, Touch, StoreRounds, Commit, CreditQuota, LocalTargets, ValidBatch, ValidReport, DoneStep,
      Enqueue, Dequeue, ResponseStep;
  }

  lemma ClaimApart(s: State, r: Request)
    requires LeaseInv(s) && AllApart(s) && r.op.Claims?
    ensures s.owner == Some(r.run) ==> (AllApart(ClaimStep(s, r, r.op.accepted).0) <==> !JoinsSecond(s, r))
  {
    hide Schedule, BoardInv, AllApart, RunningKeys, RunningOn, NodeTaken, FirstOpen, PerNode;
    NodeShareIff(|RunningOn(s.board.claims, r.node)|, s.topology);
    ScheduleApart(s, r, r.op.accepted);
  }

  /** A request keeps the shards of every game on different nodes exactly when it grants no first shard beside its second. */
  lemma StepApart(s: State, r: Request)
    requires LeaseInv(s) && AllApart(s) && GivesBack(r)
    ensures AllApart(Step(s, r).0) <==> !JoinsSecond(s, r)
  {
    hide LeasedStep, Schedule, BoardInv, AllApart, BeginStep;
    var key := WorkerClaim(s.board.claims, r.worker, SlugOf(r.op));
    if r.op.Begin? {
      BeginApart(s, r);
    } else if r.op.Claims? {
      ClaimApart(s, r);
      SameBoardApart(s, Step(s, r).0);
    } else {
      if key.Some? {
        LeasedStartsNothing(s, r, key.value);
        BoardApart(s, LeasedStep(s, r, key.value).0.board);
        SameBoardApart(s.(board := LeasedStep(s, r, key.value).0.board), Step(s, r).0);
      }
      SameBoardApart(s, Step(s, r).0);
    }
  }

  lemma SameBoardApart(s: State, s': State)
    ensures s'.board == s.board ==> AllApart(s') == AllApart(s)
  {
  }

  lemma BeginApart(s: State, r: Request)
    requires AllApart(s) && r.op.Begin?
    ensures AllApart(BeginStep(s, r).0)
  {
    hide ChosenGames;
  }

  /**
   Over any history: the two shards of a game run on different nodes in every state, if and only if no claim is let through
   on the node where the second shard of the first purchase game that can start is running.
   */
  lemma ShardsApartIff(states: seq<State>, rs: seq<Request>)
    requires Behavior(states, rs) && Initial(states[0])
    requires forall j {:trigger rs[j]} | 0 <= j < |rs| :: GivesBack(rs[j])
    ensures (forall i | 0 <= i < |states| :: AllApart(states[i]))
       <==> (forall j {:trigger rs[j]} | 0 <= j < |rs| :: !JoinsSecond(states[j], rs[j]))
  {
    hide Step, JoinsSecond, GivesBack;
    if forall j {:trigger rs[j]} | 0 <= j < |rs| :: !JoinsSecond(states[j], rs[j]) {
      forall i | 0 <= i < |states| ensures AllApart(states[i]) { ApartAt(states, rs, i); }
    }
    if forall i | 0 <= i < |states| :: AllApart(states[i]) {
      forall j {:trigger rs[j]} | 0 <= j < |rs| ensures !JoinsSecond(states[j], rs[j]) {
        assert GivesBack(rs[j]) && AllApart(states[j]) && AllApart(states[j + 1]);
        LeasesAt(states, rs, j);
        StepApart(states[j], rs[j]);
      }
    }
  }

  lemma {:induction false} ApartAt(states: seq<State>, rs: seq<Request>, i: nat)
    requires Behavior(states, rs) && Initial(states[0]) && i < |states|
    requires forall j {:trigger rs[j]} | 0 <= j < |rs| :: GivesBack(rs[j]) && !JoinsSecond(states[j], rs[j])
    ensures AllApart(states[i])
    decreases i
  {
    hide Step, JoinsSecond, GivesBack;
    if i > 0 {
      ApartAt(states, rs, i - 1);
      LeasesAt(states, rs, i - 1);
      StepApart(states[i - 1], rs[i - 1]);
    }
  }

  // ----- a state in which the first shard joins the second -----

  const JOIN_CLAIMS := map[
    Primary("a") := Claim(Retryable, Some("1.1"), Some("1"), true, 1, 0, 0, 1),
    Secondary("a") := Claim(Running, Some("2.1"), Some("2"), true, 2, 0, 0, 0)]

  const JOIN_STATE := State(
    true, Some("run"), 9, Topology(2, 1, 9, 9, 4, 2, false, false, 0), ["a"], ["a"], None, 0, false,
    Board(JOIN_CLAIMS, map[]), Gate(0, map[], [], map[], map[], {}, []),
    Disk(map[], map[], map[], map[], map[], map[]), map[], 0)

  const JOIN_CLAIM := Request("run", 0, "2.2", "2", Claims({}))

  lemma JoinCaps()
    ensures WithinCaps(JOIN_CLAIMS, JOIN_STATE.topology)
    ensures RunningKeys(JOIN_CLAIMS) == {Secondary("a")} && RunningOn(JOIN_CLAIMS, "2") == {Secondary("a")}
  {
    forall node ensures |RunningOn(JOIN_CLAIMS, node)| <= 1 {
      assert RunningOn(JOIN_CLAIMS, node) == if node == "2" then {Secondary("a")} else {};
    }
    assert RunningKeys(JOIN_CLAIMS) == {Secondary("a")};
  }

  /**
   Without `fillIdleNormal` that happens: the first shard of a game waits for its retry, the second runs on node 2, and
   another worker of node 2 is granted the first.
   */
  lemma ShardsMayShareANode()
    ensures LeaseInv(JOIN_STATE) && AllApart(JOIN_STATE) && !JOIN_STATE.topology.fillIdleNormal
    ensures JoinsSecond(JOIN_STATE, JOIN_CLAIM)
    ensures !AllApart(Step(JOIN_STATE, JOIN_CLAIM).0)
  {
    hide Step, AllApart, BoardInv;
    JoinHolds();
    JoinsNow();
    StepApart(JOIN_STATE, JOIN_CLAIM);
  }

  lemma JoinHolds()
    ensures LeaseInv(JOIN_STATE) && AllApart(JOIN_STATE)
  {
    hide WithinCaps;
    JoinCaps();
  }

  lemma JoinsNow()
    ensures JoinsSecond(JOIN_STATE, JOIN_CLAIM)
  {
    hide RunningKeys, RunningOn, NodeTaken;
    JoinCaps();
    assert FirstOpen(JOIN_STATE.board, ["a"], {}, 0) == Some("a");
  }
}
