/** When a worker that asks for a game is sent home, read off the state before it asks. */
module Dismissal {
  import opened Base
  import opened CoordinatorTypes
  import opened CoordinatorSteps
  import opened LeaseSafety

  /** The first pass marks the game as accepted instead of handing it out. */
  predicate MarkedNow(b: Board, slug: Slug, accepted: set<Slug>, now: int) {
    slug in accepted && !SkipsPrimary(b, slug, now)
  }

  /** The purchase games that stay unresolved once the accepted ones are marked. */
  function StillWaiting(b: Board, slugs: seq<Slug>, accepted: set<Slug>, now: int): nat {
    if slugs == [] then 0
    else
      (if Unresolved(b, slugs[0]) && !MarkedNow(b, slugs[0], accepted, now) then 1 else 0)
      + StillWaiting(b, slugs[1..], accepted, now)
  }

  function FirstNormal(b: Board, slugs: seq<Slug>, modeGames: seq<Slug>, accepted: set<Slug>, now: int): Option<Slug> {
    if slugs == [] then None
    else if SkipsNormal(b, slugs[0], modeGames, now) || slugs[0] in accepted then
      FirstNormal(b, slugs[1..], modeGames, accepted, now)
    else Some(slugs[0])
  }

  /** No purchase game can start, none takes a second shard on the node, and no game can be collected normally. */
  ghost predicate NothingOpen(s: State, r: Request, accepted: set<Slug>) {
    && FirstOpen(s.board, s.modeGames, accepted, r.now).None?
    && (s.topology.maxShards < 2 || forall slug | slug in s.modeGames :: !TakesSecondary(s.board, slug, r.node, r.now))
    && FirstNormal(s.board, s.games, s.modeGames, accepted, r.now).None?
  }

  // ----- the passes against the board before the claim -----

  ghost predicate MarkedAs(b: Board, b': Board, slugs: seq<Slug>, accepted: set<Slug>, now: int, slug: Slug) {
    && SameAt(b.claims, b'.claims, Secondary(slug))
    && (if slug in slugs && MarkedNow(b, slug, accepted, now) then
          && Primary(slug) in b'.claims && b'.claims[Primary(slug)] == ACCEPTED_CLAIM
          && slug in b'.quotas && b'.quotas[slug] == ACCEPTED_QUOTA
        else SameAt(b.claims, b'.claims, Primary(slug)) && SameAt(b.quotas, b'.quotas, slug))
  }

  /** What the first pass leaves of every game, when it picks none. */
  ghost predicate Marked(b: Board, b': Board, slugs: seq<Slug>, accepted: set<Slug>, now: int) {
    forall slug :: MarkedAs(b, b', slugs, accepted, now, slug)
  }

  lemma PassMarks(b: Board, slugs: seq<Slug>, accepted: set<Slug>, now: int)
    requires PickPrimary(b, slugs, accepted, now).1.None?
    ensures Marked(b, PickPrimary(b, slugs, accepted, now).0, slugs, accepted, now)
  {
    hide SkipsPrimary, PickPrimary;
    var b' := PickPrimary(b, slugs, accepted, now).0;
    forall slug
      ensures MarkedAs(b, b', slugs, accepted, now, slug)
    {
      PickPrimaryMarks(b, slugs, accepted, now, slug);
    }
  }

  lemma {:induction false} WaitingAfter(b: Board, b': Board, slugs: seq<Slug>, rest: seq<Slug>, accepted: set<Slug>, now: int)
    requires Marked(b, b', slugs, accepted, now) && forall slug | slug in rest :: slug in slugs
    ensures CountUnresolved(b', rest) == StillWaiting(b, rest, accepted, now)
    decreases rest
  {
    if rest != [] {
      WaitingAfter(b, b', slugs, rest[1..], accepted, now);
      UnresolvedAfter(b, b', slugs, rest[0], accepted, now);
    }
  }

  lemma UnresolvedAfter(b: Board, b': Board, slugs: seq<Slug>, slug: Slug, accepted: set<Slug>, now: int)
    requires Marked(b, b', slugs, accepted, now) && slug in slugs
    ensures Unresolved(b', slug) <==> Unresolved(b, slug) && !MarkedNow(b, slug, accepted, now)
  {
    assert MarkedAs(b, b', slugs, accepted, now, slug);
    hide SkipsPrimary;
  }

  lemma SecondaryAfter(b: Board, b': Board, slugs: seq<Slug>, slug: Slug, node: Node, accepted: set<Slug>, now: int)
    requires Marked(b, b', slugs, accepted, now)
    ensures TakesSecondary(b', slug, node, now) == TakesSecondary(b, slug, node, now)
  {
    assert MarkedAs(b, b', slugs, accepted, now, slug);
  }

  /** A game that is marked is accepted, so the third pass leaves it alone either way. */
  lemma NormalAfter(b: Board, b': Board, slugs: seq<Slug>, slug: Slug, accepted: set<Slug>, now: int)
    requires Marked(b, b', slugs, accepted, now)
    ensures SkipsNormal(b', slug, slugs, now) || slug in accepted <==> SkipsNormal(b, slug, slugs, now) || slug in accepted
  {
    assert MarkedAs(b, b', slugs, accepted, now, slug);
  }

  lemma {:induction false} FirstNormalAfter(b: Board, b': Board, slugs: seq<Slug>, games: seq<Slug>, accepted: set<Slug>,
                                            now: int)
    requires Marked(b, b', slugs, accepted, now)
    ensures FirstNormal(b', games, slugs, accepted, now) == FirstNormal(b, games, slugs, accepted, now)
    decreases games
  {
    if games != [] {
      FirstNormalAfter(b, b', slugs, games[1..], accepted, now);
      NormalAfter(b, b', slugs, games[0], accepted, now);
    }
  }

  lemma {:induction false} PickIsFirstNormal(b: Board, slugs: seq<Slug>, modeGames: seq<Slug>, accepted: set<Slug>, now: int)
    ensures PickNormal(b, slugs, modeGames, accepted, now).1 == FirstNormal(b, slugs, modeGames, accepted, now)
    decreases slugs
  {
    if slugs != [] {
      var slug, rest := slugs[0], slugs[1..];
      PickIsFirstNormal(b, rest, modeGames, accepted, now);
      if !SkipsNormal(b, slug, modeGames, now) && slug in accepted {
        PickIsFirstNormal(AcceptNormal(b, slug), rest, modeGames, accepted, now);
        FirstNormalMarked(b, slug, rest, modeGames, accepted, now);
      }
    }
  }

  lemma {:induction false} FirstNormalMarked(b: Board, slug: Slug, slugs: seq<Slug>, modeGames: seq<Slug>,
                                             accepted: set<Slug>, now: int)
    requires slug in accepted && !SkipsNormal(b, slug, modeGames, now)
    ensures FirstNormal(AcceptNormal(b, slug), slugs, modeGames, accepted, now)
         == FirstNormal(b, slugs, modeGames, accepted, now)
    decreases slugs
  {
    if slugs != [] {
      FirstNormalMarked(b, slug, slugs[1..], modeGames, accepted, now);
      assert slugs[0] != slug ==>
        SkipsNormal(AcceptNormal(b, slug), slugs[0], modeGames, now) == SkipsNormal(b, slugs[0], modeGames, now);
    }
  }

  // ----- the answer -----

  lemma ScheduleStops(s: State, r: Request, accepted: set<Slug>)
    requires LeaseInv(s)
    ensures var waiting := StillWaiting(s.board, s.modeGames, accepted, r.now);
      Schedule(s, r, accepted).1 == Stop <==>
        && NothingOpen(s, r, accepted) && RunningKeys(s.board.claims) == {}
        && (waiting == 0 || (s.topology.fillIdleNormal && waiting < s.topology.maxClaims))
  {
    hide PickPrimary, PickNormal, PickSecondary, BoardInv, Grant, CountUnresolved, FirstOpen, FirstNormal, Marked,
      TakesSecondary;
    var (b1, primary) := PickPrimary(s.board, s.modeGames, accepted, r.now);
    PickIsFirstOpen(s.board, s.modeGames, accepted, r.now);
    if primary.Some? {
      GrantNeverStops(s.(board := b1), r, Primary(primary.value), true, 1);
    } else {
      PassMarks(s.board, s.modeGames, accepted, r.now);
      PickPrimarySound(s.board, s.modeGames, accepted, r.now, s.topology, s.modeGames);
      SecondStops(s, b1, r, accepted);
      WaitingAfter(s.board, b1, s.modeGames, s.modeGames, accepted, r.now);
      FirstNormalAfter(s.board, b1, s.modeGames, s.games, accepted, r.now);
      PickIsFirstNormal(b1, s.games, s.modeGames, accepted, r.now);
      PickNormalSound(b1, s.games, s.modeGames, accepted, r.now, s.topology);
      NoneRunning(s.board.claims);
      var (b2, normal) := PickNormal(b1, s.games, s.modeGames, accepted, r.now);
      var secondary := if s.topology.maxShards < 2 then None else PickSecondary(b1, s.modeGames, r.node, r.now);
      if secondary.Some? {
        GrantNeverStops(s.(board := b1), r, Secondary(secondary.value), true, 2);
      } else if normal.Some? {
        GrantNeverStops(s.(board := b2), r, Primary(normal.value), false, 0);
      }
    }
  }

  lemma GrantNeverStops(s: State, r: Request, key: ClaimKey, special: bool, shard: nat)
    ensures Grant(s, r, key, special, shard).1 != Stop
  {
    hide NodeTaken, SpreadsFirst, NextGame, Touch;
  }

  lemma NoneRunning(claims: map<ClaimKey, Claim>)
    ensures NormalRunning(claims) <= RunningKeys(claims)
    ensures RunningKeys(claims) == {} ==> |NormalRunning(claims)| == 0
  {
  }

  /** The second pass picks a game exactly when one takes a second shard on the board before the claim. */
  lemma SecondStops(s: State, b: Board, r: Request, accepted: set<Slug>)
    requires Marked(s.board, b, s.modeGames, accepted, r.now)
    ensures PickSecondary(b, s.modeGames, r.node, r.now).Some?
       <==> exists slug | slug in s.modeGames :: TakesSecondary(s.board, slug, r.node, r.now)
  {
    hide TakesSecondary, Marked;
    PickSecondarySound(b, s.modeGames, r.node, r.now);
    forall slug ensures TakesSecondary(b, slug, r.node, r.now) == TakesSecondary(s.board, slug, r.node, r.now) {
      SecondaryAfter(s.board, b, s.modeGames, slug, r.node, accepted, r.now);
    }
  }

  lemma ClaimStops(s: State, r: Request, accepted: set<Slug>)
    requires LeaseInv(s) && Unhalted(s, r.node) && s.owner == Some(r.run)
    ensures var waiting := StillWaiting(s.board, s.modeGames, accepted, r.now);
      ClaimStep(s, r, accepted).1 == Stop <==>
        || s.deadline <= r.now || s.deadline <= s.gate.until
        || (&& PassesGates(s, r) && NothingOpen(s, r, accepted) && RunningKeys(s.board.claims) == {}
            && (waiting == 0 || (s.topology.fillIdleNormal && waiting < s.topology.maxClaims)))
  {
    hide Schedule, BoardInv, NothingOpen, StillWaiting, RunningKeys, RunningOn, PerNode;
    NodeShareIff(|RunningOn(s.board.claims, r.node)|, s.topology);
    ScheduleStops(s, r, accepted);
  }

  /**
   When a worker is dismissed, exactly: the run is over or paused past its end, or the claim is let through, nothing is open
   and nothing runs. Purchase games that are not resolved keep it waiting, except in `fillIdleNormal` mode while they are
   fewer than the seats.
   */
  lemma DismissedIff(s: State, r: Request)
    requires LeaseInv(s) && r.op.Claims?
    ensures var waiting := StillWaiting(s.board, s.modeGames, r.op.accepted, r.now);
      Step(s, r).1 == Stop <==>
        && s.owner == Some(r.run) && Unhalted(s, r.node)
        && (|| s.deadline <= r.now || s.deadline <= s.gate.until
            || (&& PassesGates(s, r) && NothingOpen(s, r, r.op.accepted) && RunningKeys(s.board.claims) == {}
                && (waiting == 0 || (s.topology.fillIdleNormal && waiting < s.topology.maxClaims))))
  {
    hide BoardInv, NothingOpen, StillWaiting, RunningKeys, PassesGates, Schedule;
    if s.owner == Some(r.run) && Unhalted(s, r.node) { ClaimStops(s, r, r.op.accepted); }
  }

  /**
   Before the end of the run and while a purchase game is unresolved, a worker is kept, exactly unless `fillIdleNormal` is on
   with fewer such games than seats, its claim is let through, nothing is open and nothing runs.
   */
  lemma WaitingGamesKeepWorkersIff(s: State, r: Request)
    requires LeaseInv(s) && r.op.Claims? && r.now < s.deadline && s.gate.until < s.deadline
    requires StillWaiting(s.board, s.modeGames, r.op.accepted, r.now) > 0
    ensures Step(s, r).1 != Stop <==>
      !(&& s.topology.fillIdleNormal
        && StillWaiting(s.board, s.modeGames, r.op.accepted, r.now) < s.topology.maxClaims
        && PassesGates(s, r) && NothingOpen(s, r, r.op.accepted) && RunningKeys(s.board.claims) == {})
  {
    hide BoardInv, NothingOpen, StillWaiting, Step, RunningKeys;
    DismissedIff(s, r);
  }

  // ----- a worker that is dismissed too early -----

  const RETRY_BOARD := Board(map[Primary("a") := Claim(Retryable, Some("1.1"), Some("1"), true, 1, 0, 30_000, 1)], map[])

  const RETRY_STATE := State(
    true, Some("run"), 600_000, Topology(2, 1, 9, 9, 4, 2, true, false, 0), ["a"], ["a"], None, 0, false, RETRY_BOARD,
    Gate(0, map[], [], map[], map[], {}, []), Disk(map[], map[], map[], map[], map[], map[]), map[], 0)

  function RetryClaim(now: int): Request {
    Request("run", now, "2.1", "2", Claims({}))
  }

  lemma RetryHolds()
    ensures LeaseInv(RETRY_STATE)
    ensures RunningKeys(RETRY_BOARD.claims) == {} && forall node :: RunningOn(RETRY_BOARD.claims, node) == {}
  {
    assert RunningKeys(RETRY_BOARD.claims) == {};
    assert forall node :: RunningOn(RETRY_BOARD.claims, node) == {};
  }

  /**
   With `fillIdleNormal` a worker can be dismissed while a game will open again: one game waits out its retry minute and
   nothing runs. The claim at time 0 is answered with a dismissal, though 30 s later, long before the end of the run, the
   game can start.
   */
  lemma DismissedTooEarly()
    ensures LeaseInv(RETRY_STATE) && RETRY_STATE.topology.fillIdleNormal
    ensures StillWaiting(RETRY_BOARD, RETRY_STATE.modeGames, {}, 0) == 1
    ensures Step(RETRY_STATE, RetryClaim(0)).1 == Stop
    ensures FirstOpen(RETRY_BOARD, RETRY_STATE.modeGames, {}, 30_000) == Some("a") && 30_000 < RETRY_STATE.deadline
    ensures PassesGates(RETRY_STATE, RetryClaim(30_000))
  {
    hide BoardInv, Step, RunningKeys, RunningOn;
    RetryHolds();
    assert RETRY_STATE.modeGames[1..] == [];
    assert StillWaiting(RETRY_BOARD, RETRY_STATE.modeGames[1..], {}, 0) == 0;
    DismissedIff(RETRY_STATE, RetryClaim(0));
  }
}
