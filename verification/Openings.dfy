/**
 Which game a claim is answered with, said by the names of statuses, by counts against targets and in plain milliseconds:
 a reference for the three passes that shares none of their conditions.
 */
module Openings {
  import opened Base
  import opened CoordinatorTypes
  import opened CoordinatorSteps
  import opened LeaseSafety
  import opened Dismissal

  // ----- what is open -----

  /** Nobody holds the lease and it may be handed out again. */
  predicate Vacant(c: Claim, now: int) {
    match c.status
    case Released => true
    case ShardComplete => true
    case Waiting => true
    case Retryable => c.retryAt <= now && c.retryCount < 2
    case Running => false
    case Unavailable => false
    case Failed => false
    case AlreadyAccepted => false
    case Other(_) => false
  }

  /** Purchase rounds are missing: a target is not met, or none was ever set and the game was not accepted. */
  ghost predicate MissesTargets(b: Board, slug: Slug) {
    if slug in b.quotas && b.quotas[slug].frozen.Some? then
      var f := b.quotas[slug].frozen.value;
      exists m | m in f.targets :: m != 0 && f.targets[m] > Get(f.counts, m, 0)
    else !(slug in b.quotas && b.quotas[slug].accepted)
  }

  ghost predicate GivenUp(b: Board, slug: Slug) {
    slug in b.quotas && b.quotas[slug].unavailable
  }

  ghost predicate HasStatus(b: Board, key: ClaimKey, status: Status) {
    key in b.claims && b.claims[key].status == status
  }

  ghost predicate OpenFirst(b: Board, slug: Slug, now: int) {
    && MissesTargets(b, slug) && !GivenUp(b, slug)
    && (Primary(slug) in b.claims ==>
          && Vacant(b.claims[Primary(slug)], now)
          && !(HasStatus(b, Primary(slug), ShardComplete) && HasStatus(b, Secondary(slug), Running)))
  }

  ghost predicate OpenSecond(b: Board, slug: Slug, node: Node, now: int) {
    && MissesTargets(b, slug) && !GivenUp(b, slug)
    && (HasStatus(b, Primary(slug), Running) || HasStatus(b, Primary(slug), Unavailable))
    && b.claims[Primary(slug)].node != Some(node)
    && (Secondary(slug) in b.claims ==> Vacant(b.claims[Secondary(slug)], now))
  }

  ghost predicate OpenNormal(b: Board, slug: Slug, modeGames: seq<Slug>, now: int) {
    && (slug in modeGames ==> !MissesTargets(b, slug))
    && !(exists k | k in b.claims && k.slug == slug :: b.claims[k].status == Running && b.claims[k].specialOnly)
    && (Primary(slug) in b.claims ==> Vacant(b.claims[Primary(slug)], now))
  }

  /** A purchase game that keeps a seat. */
  ghost predicate Unsettled(b: Board, slug: Slug) {
    && MissesTargets(b, slug) && !GivenUp(b, slug)
    && !HasStatus(b, Primary(slug), Failed) && !HasStatus(b, Secondary(slug), Failed)
  }

  lemma MissesIff(b: Board, slug: Slug)
    requires slug in b.quotas ==> QuotaRecord(b, slug)
    ensures MissesTargets(b, slug) <==> !Get(b.quotas, slug, NO_QUOTA).specialComplete
  {
  }

  lemma FirstIff(b: Board, slug: Slug, now: int)
    requires slug in b.quotas ==> QuotaRecord(b, slug)
    ensures OpenFirst(b, slug, now) <==> !SkipsPrimary(b, slug, now)
  {
    MissesIff(b, slug);
    hide MissesTargets;
  }

  lemma SecondIff(b: Board, slug: Slug, node: Node, now: int)
    requires slug in b.quotas ==> QuotaRecord(b, slug)
    ensures OpenSecond(b, slug, node, now) <==> TakesSecondary(b, slug, node, now)
  {
    MissesIff(b, slug);
    hide MissesTargets;
  }

  lemma NormalIff(b: Board, slug: Slug, modeGames: seq<Slug>, now: int)
    requires slug in b.quotas ==> QuotaRecord(b, slug)
    ensures OpenNormal(b, slug, modeGames, now) <==> !SkipsNormal(b, slug, modeGames, now)
  {
    MissesIff(b, slug);
    hide MissesTargets;
    assert forall k :: k in b.claims && k.slug == slug ==> k == Primary(slug) || k == Secondary(slug);
  }

  lemma UnsettledIff(b: Board, slug: Slug)
    requires slug in b.quotas ==> QuotaRecord(b, slug)
    ensures Unsettled(b, slug) <==> Unresolved(b, slug)
  {
    MissesIff(b, slug);
    hide MissesTargets;
  }

  // ----- which comes first -----

  /** `slug` is the first of the list for which `p` holds. */
  ghost predicate IsFirst(slugs: seq<Slug>, p: Slug -> bool, slug: Slug) {
    exists i :: 0 <= i < |slugs| && slugs[i] == slug && p(slug) && forall k | 0 <= k < i :: !p(slugs[k])
  }

  ghost function Firsts(s: State, r: Request): Slug -> bool
    requires r.op.Claims?
  {
    (slug: Slug) => slug !in r.op.accepted && OpenFirst(s.board, slug, r.now)
  }

  ghost function Seconds(s: State, r: Request): Slug -> bool {
    (slug: Slug) => s.topology.maxShards >= 2 && OpenSecond(s.board, slug, r.node, r.now)
  }

  ghost function Normals(s: State, r: Request): Slug -> bool
    requires r.op.Claims?
  {
    (slug: Slug) => slug !in r.op.accepted && OpenNormal(s.board, slug, s.modeGames, r.now)
  }

  /** The purchase games that keep a seat, without those that this claim marks as accepted. */
  ghost function Seated(s: State, r: Request): Slug -> bool
    requires r.op.Claims?
  {
    (slug: Slug) => Unsettled(s.board, slug) && !(slug in r.op.accepted && OpenFirst(s.board, slug, r.now))
  }

  ghost predicate NoneOf(slugs: seq<Slug>, p: Slug -> bool) {
    forall slug | slug in slugs :: !p(slug)
  }

  lemma {:induction false} FirstOpenIff(s: State, r: Request, slugs: seq<Slug>)
    requires LeaseInv(s) && r.op.Claims?
    ensures var first := FirstOpen(s.board, slugs, r.op.accepted, r.now);
      if first.Some? then IsFirst(slugs, Firsts(s, r), first.value) else NoneOf(slugs, Firsts(s, r))
    decreases slugs
  {
    if slugs != [] {
      FirstIff(s.board, slugs[0], r.now);
      hide SkipsPrimary, OpenFirst, BoardInv;
      FirstOpenIff(s, r, slugs[1..]);
      var first := FirstOpen(s.board, slugs, r.op.accepted, r.now);
      if first.Some? && first.value != slugs[0] { LaterFirst(slugs, Firsts(s, r), first.value); }
    }
  }

  lemma LaterFirst(slugs: seq<Slug>, p: Slug -> bool, slug: Slug)
    requires slugs != [] && !p(slugs[0]) && IsFirst(slugs[1..], p, slug)
    ensures IsFirst(slugs, p, slug)
  {
    var i :| 0 <= i < |slugs[1..]| && slugs[1..][i] == slug && p(slug) && forall k | 0 <= k < i :: !p(slugs[1..][k]);
    assert slugs[i + 1] == slug;
    assert forall k | 1 <= k < i + 1 :: slugs[k] == slugs[1..][k - 1];
  }

  lemma {:induction false} SecondOpenIff(s: State, r: Request, slugs: seq<Slug>)
    requires LeaseInv(s) && s.topology.maxShards >= 2
    ensures var second := PickSecondary(s.board, slugs, r.node, r.now);
      if second.Some? then IsFirst(slugs, Seconds(s, r), second.value) else NoneOf(slugs, Seconds(s, r))
    decreases slugs
  {
    if slugs != [] {
      SecondIff(s.board, slugs[0], r.node, r.now);
      hide TakesSecondary, OpenSecond, BoardInv;
      SecondOpenIff(s, r, slugs[1..]);
      var second := PickSecondary(s.board, slugs, r.node, r.now);
      if second.Some? && !Seconds(s, r)(slugs[0]) { LaterFirst(slugs, Seconds(s, r), second.value); }
    }
  }

  lemma {:induction false} NormalOpenIff(s: State, r: Request, slugs: seq<Slug>)
    requires LeaseInv(s) && r.op.Claims?
    ensures var normal := FirstNormal(s.board, slugs, s.modeGames, r.op.accepted, r.now);
      if normal.Some? then IsFirst(slugs, Normals(s, r), normal.value) else NoneOf(slugs, Normals(s, r))
    decreases slugs
  {
    if slugs != [] {
      NormalIff(s.board, slugs[0], s.modeGames, r.now);
      hide SkipsNormal, OpenNormal, BoardInv;
      NormalOpenIff(s, r, slugs[1..]);
      var normal := FirstNormal(s.board, slugs, s.modeGames, r.op.accepted, r.now);
      if normal.Some? && !Normals(s, r)(slugs[0]) { LaterFirst(slugs, Normals(s, r), normal.value); }
    }
  }

  lemma {:induction false} SeatedIs(s: State, r: Request, slugs: seq<Slug>)
    requires LeaseInv(s) && r.op.Claims?
    ensures StillWaiting(s.board, slugs, r.op.accepted, r.now) == |Filter(slugs, Seated(s, r))|
    decreases slugs
  {
    if slugs != [] {
      FirstIff(s.board, slugs[0], r.now);
      UnsettledIff(s.board, slugs[0]);
      hide SkipsPrimary, OpenFirst, Unresolved, Unsettled, BoardInv;
      SeatedIs(s, r, slugs[1..]);
    }
  }

  // ----- the answer -----

  /** A purchase lease wants a node to itself, when games may be filled in beside it. */
  ghost predicate NodeIdle(s: State, node: Node) {
    !s.topology.fillIdleNormal || RunningOn(s.board.claims, node) == {}
  }

  /** A normal lease shares no node with a purchase lease, and for two minutes leaves idle nodes the preference. */
  ghost predicate NodeShared(s: State, r: Request) {
    !s.topology.fillIdleNormal
    || (&& (forall k | k in RunningOn(s.board.claims, r.node) :: !s.board.claims[k].specialOnly)
        && (|BusyNodes(s.board.claims)| >= s.topology.nodes
            || forall k | k in RunningOn(s.board.claims, r.node) :: r.now - s.board.claims[k].claimedAt >= 120_000))
  }

  /** There is a seat for a normal lease beside those kept for purchase games. */
  ghost predicate NormalSeat(s: State, r: Request)
    requires r.op.Claims?
  {
    var seated := |Filter(s.modeGames, Seated(s, r))|;
    seated == 0 || (s.topology.fillIdleNormal && |NormalRunning(s.board.claims)| + seated < s.topology.maxClaims)
  }

  /** The answer to a claim that is let through. */
  ghost predicate Answered(s: State, r: Request, reply: Reply)
    requires r.op.Claims?
  {
    var firsts, seconds, normals := Firsts(s, r), Seconds(s, r), Normals(s, r);
    && (forall slug | IsFirst(s.modeGames, firsts, slug) ::
          reply == if NodeIdle(s, r.node) then Lease(slug, true, 1) else Backoff)
    && (NoneOf(s.modeGames, firsts) ==>
          && (forall slug | IsFirst(s.modeGames, seconds, slug) ::
                reply == if NodeIdle(s, r.node) then Lease(slug, true, 2) else Backoff)
          && (NoneOf(s.modeGames, seconds) ==>
                if !NormalSeat(s, r) then reply == Backoff
                else
                  && (forall slug | IsFirst(s.games, normals, slug) ::
                        reply == if NodeShared(s, r) then Lease(slug, false, 0) else Backoff)
                  && (NoneOf(s.games, normals) ==>
                        reply == if exists k :: RunningAt(s.board.claims, k) then Backoff else Stop)))
  }

  lemma FirstIsUnique(slugs: seq<Slug>, p: Slug -> bool, a: Slug, b: Slug)
    requires IsFirst(slugs, p, a) && IsFirst(slugs, p, b)
    ensures a == b
  {
    var i :| 0 <= i < |slugs| && slugs[i] == a && p(a) && forall k | 0 <= k < i :: !p(slugs[k]);
    var j :| 0 <= j < |slugs| && slugs[j] == b && p(b) && forall k | 0 <= k < j :: !p(slugs[k]);
    assert !(i < j) && !(j < i);
  }

  lemma FirstOrNone(slugs: seq<Slug>, p: Slug -> bool, first: Option<Slug>)
    requires if first.Some? then IsFirst(slugs, p, first.value) else NoneOf(slugs, p)
    ensures forall slug :: IsFirst(slugs, p, slug) <==> first == Some(slug)
    ensures NoneOf(slugs, p) <==> first.None?
  {
    forall slug ensures IsFirst(slugs, p, slug) <==> first == Some(slug) {
      if IsFirst(slugs, p, slug) {
        FirstIsListed(slugs, p, slug);
        if first.Some? { FirstIsUnique(slugs, p, slug, first.value); }
      }
    }
    if first.Some? { FirstIsListed(slugs, p, first.value); }
  }

  lemma FirstIsListed(slugs: seq<Slug>, p: Slug -> bool, slug: Slug)
    requires IsFirst(slugs, p, slug)
    ensures slug in slugs && p(slug)
  {
  }

  lemma IdleIff(s: State, r: Request, b: Board)
    requires forall node :: RunningOn(b.claims, node) == RunningOn(s.board.claims, node)
    ensures NodeIdle(s, r.node) <==> !(s.topology.fillIdleNormal && NodeTaken(b.claims, r.node, true))
  {
  }

  lemma SharedIff(s: State, r: Request, b: Board)
    requires StartsNothing(s.board.claims, b.claims) && BusyNodes(b.claims) == BusyNodes(s.board.claims)
    requires RunningOn(b.claims, r.node) == RunningOn(s.board.claims, r.node)
    ensures NodeShared(s, r) <==>
      !(s.topology.fillIdleNormal
        && (NodeTaken(b.claims, r.node, false) || SpreadsFirst(b.claims, s.topology, r.node, r.now)))
  {
    hide BusyNodes;
    forall k | k in RunningOn(s.board.claims, r.node) ensures b.claims[k] == s.board.claims[k] {
      assert RunningAt(b.claims, k);
    }
  }

  lemma SameBusy(before: map<ClaimKey, Claim>, after: map<ClaimKey, Claim>)
    requires StartsNothing(before, after) && RunningKeys(after) == RunningKeys(before)
    ensures BusyNodes(after) == BusyNodes(before)
  {
    forall k | k in RunningKeys(before) ensures after[k] == before[k] {
      assert RunningAt(after, k);
    }
    forall node | node in BusyNodes(before) ensures node in BusyNodes(after) {
      var k :| k in before && before[k].status == Running && before[k].node == node;
      assert k in RunningKeys(after);
    }
    forall node | node in BusyNodes(after) ensures node in BusyNodes(before) {
      var k :| k in after && after[k].status == Running && after[k].node == node;
      assert k in RunningKeys(before);
    }
  }

  lemma GrantAnswers(s: State, r: Request, key: ClaimKey, special: bool, shard: nat)
    ensures Grant(s, r, key, special, shard).1
      == if s.topology.fillIdleNormal
            && (NodeTaken(s.board.claims, r.node, special)
                || (!special && SpreadsFirst(s.board.claims, s.topology, r.node, r.now)))
         then Backoff else Lease(key.slug, special, shard)
  {
    hide NodeTaken, SpreadsFirst, NextGame, Touch;
  }

  /** A claim that is let through is answered as the reference says: in every case, with every game. */
  lemma ScheduleAnswers(s: State, r: Request)
    requires LeaseInv(s) && r.op.Claims?
    ensures Answered(s, r, Schedule(s, r, r.op.accepted).1)
  {
    hide PickPrimary, PickNormal, PickSecondary, BoardInv, Grant, CountUnresolved, FirstOpen, FirstNormal, Marked, NodeTaken,
      SpreadsFirst, IsFirst, NoneOf, NodeIdle, NodeShared, StartsNothing, BusyNodes, Filter;
    var accepted := r.op.accepted;
    var (b1, primary) := PickPrimary(s.board, s.modeGames, accepted, r.now);
    PickIsFirstOpen(s.board, s.modeGames, accepted, r.now);
    PickPrimarySound(s.board, s.modeGames, accepted, r.now, s.topology, s.modeGames);
    FirstOpenIff(s, r, s.modeGames);
    FirstOrNone(s.modeGames, Firsts(s, r), primary);
    IdleIff(s, r, b1);
    if primary.Some? {
      GrantAnswers(s.(board := b1), r, Primary(primary.value), true, 1);
    } else {
      LaterAnswers(s, b1, r);
    }
  }

  lemma LaterAnswers(s: State, b1: Board, r: Request)
    requires LeaseInv(s) && r.op.Claims? && PickPrimary(s.board, s.modeGames, r.op.accepted, r.now) == (b1, None)
    ensures var reply := Schedule(s, r, r.op.accepted).1;
      && (forall slug | IsFirst(s.modeGames, Seconds(s, r), slug) ::
            reply == if NodeIdle(s, r.node) then Lease(slug, true, 2) else Backoff)
      && (NoneOf(s.modeGames, Seconds(s, r)) ==>
            if !NormalSeat(s, r) then reply == Backoff
            else
              && (forall slug | IsFirst(s.games, Normals(s, r), slug) ::
                    reply == if NodeShared(s, r) then Lease(slug, false, 0) else Backoff)
              && (NoneOf(s.games, Normals(s, r)) ==>
                    reply == if exists k :: RunningAt(s.board.claims, k) then Backoff else Stop))
  {
    hide PickPrimary, PickNormal, PickSecondary, BoardInv, Grant, CountUnresolved, FirstNormal, Marked, NodeTaken,
      SpreadsFirst, IsFirst, NoneOf, NodeIdle, NodeShared, StartsNothing, BusyNodes, Filter, OpenSecond;
    var accepted := r.op.accepted;
    PickPrimarySound(s.board, s.modeGames, accepted, r.now, s.topology, s.modeGames);
    PassMarks(s.board, s.modeGames, accepted, r.now);
    SecondPicks(s, b1, r);
    var second := if s.topology.maxShards < 2 then None else PickSecondary(b1, s.modeGames, r.node, r.now);
    FirstOrNone(s.modeGames, Seconds(s, r), second);
    IdleIff(s, r, b1);
    if second.Some? {
      GrantAnswers(s.(board := b1), r, Secondary(second.value), true, 2);
    } else {
      WaitingAfter(s.board, b1, s.modeGames, s.modeGames, accepted, r.now);
      SeatedIs(s, r, s.modeGames);
      FirstNormalAfter(s.board, b1, s.modeGames, s.games, accepted, r.now);
      PickIsFirstNormal(b1, s.games, s.modeGames, accepted, r.now);
      PickNormalSound(b1, s.games, s.modeGames, accepted, r.now, s.topology);
      NormalOpenIff(s, r, s.games);
      var (b2, normal) := PickNormal(b1, s.games, s.modeGames, accepted, r.now);
      FirstOrNone(s.games, Normals(s, r), normal);
      PassesStartNothing(s.board, s.modeGames, s.games, s.modeGames, accepted, r.now);
      SameBusy(s.board.claims, b2.claims);
      SharedIff(s, r, b2);
      if normal.Some? { GrantAnswers(s.(board := b2), r, Primary(normal.value), false, 0); }
      RunningSome(s.board.claims);
    }
  }

  lemma RunningSome(claims: map<ClaimKey, Claim>)
    ensures RunningKeys(claims) != {} <==> exists k :: RunningAt(claims, k)
  {
    if RunningKeys(claims) != {} {
      var k :| k in RunningKeys(claims);
      assert RunningAt(claims, k);
    }
    if k :| RunningAt(claims, k) { assert k in RunningKeys(claims); }
  }

  /** The second pass on the board with its marks picks what it would pick before them. */
  lemma SecondPicks(s: State, b: Board, r: Request)
    requires LeaseInv(s) && r.op.Claims? && Marked(s.board, b, s.modeGames, r.op.accepted, r.now)
    ensures var second := if s.topology.maxShards < 2 then None else PickSecondary(b, s.modeGames, r.node, r.now);
      if second.Some? then IsFirst(s.modeGames, Seconds(s, r), second.value) else NoneOf(s.modeGames, Seconds(s, r))
  {
    hide Marked, TakesSecondary, OpenSecond, BoardInv, IsFirst;
    if s.topology.maxShards >= 2 {
      SecondOpenIff(s, r, s.modeGames);
      SamePicks(s.board, b, s.modeGames, s.modeGames, r.node, r.op.accepted, r.now);
    }
  }

  lemma {:induction false} SamePicks(b: Board, b': Board, modeGames: seq<Slug>, slugs: seq<Slug>, node: Node,
                                     accepted: set<Slug>, now: int)
    requires Marked(b, b', modeGames, accepted, now)
    ensures PickSecondary(b', slugs, node, now) == PickSecondary(b, slugs, node, now)
    decreases slugs
  {
    hide Marked, TakesSecondary;
    if slugs != [] {
      SecondaryAfter(b, b', modeGames, slugs[0], node, accepted, now);
      SamePicks(b, b', modeGames, slugs[1..], node, accepted, now);
    }
  }

  /**
   The answer to every claim of the run in charge: halted behind a breaker, dismissed when the run is over, told to wait at
   most 30 s for the pause or 15 s for the next start, put off while the seats or the node's share are taken, and otherwise
   answered as the reference says.
   */
  lemma ClaimAnswered(s: State, r: Request)
    requires LeaseInv(s) && r.op.Claims? && s.owner == Some(r.run)
    ensures var reply := Step(s, r).1;
      if !Unhalted(s, r.node) then reply == Halted
      else if r.now >= s.deadline || s.gate.until >= s.deadline then reply == Stop
      else if r.now < s.gate.until then reply == Wait(Min(30_000, s.gate.until - r.now))
      else if |RunningKeys(s.board.claims)| >= s.topology.maxClaims || !NodeHasRoom(s, r.node) then reply == Backoff
      else if r.now < s.nextClaimAt then reply == Wait(Min(15_000, s.nextClaimAt - r.now))
      else PassesGates(s, r) && Answered(s, r, reply)
  {
    hide Schedule, BoardInv, Answered, RunningKeys, RunningOn, PerNode;
    NodeShareIff(|RunningOn(s.board.claims, r.node)|, s.topology);
    ScheduleAnswers(s, r);
  }

  // ----- what a lease leaves behind -----

  /**
   A claim that is answered with a lease notes down who holds it, from which node and since when, as running and without any
   failure; the round files of its game can be looked up by hash from then on.
   */
  lemma LeaseEntry(s: State, r: Request)
    requires r.op.Claims? && Step(s, r).1.Lease?
    ensures var (s', reply) := Step(s, r);
      var key := if reply.shardIndex == 2 then Secondary(reply.slug) else Primary(reply.slug);
      && key in s'.board.claims
      && s'.board.claims[key]
         == Claim(Running, Some(r.worker), Some(r.node), reply.specialOnly, reply.shardIndex, r.now, 0, 0)
      && (reply.slug in s'.disk.index || (s.daemon && reply.slug in s.disk.cache))
  {
    hide PickPrimary, PickSecondary, PickNormal, CountUnresolved, NodeTaken, SpreadsFirst, NextGame, RunningKeys,
      NormalRunning, RunningOn, Seeded, Known;
  }
}
