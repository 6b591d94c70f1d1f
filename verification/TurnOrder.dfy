/** Whose turn it is: the order of a run's games, and the cursor that carries it from one run to the next. */
module TurnOrder {
  import opened Base
  import opened CoordinatorTypes
  import opened CoordinatorSteps
  import LeaseSafety

  lemma {:induction false} FilterBag<T>(s: seq<T>, p: T -> bool, q: T -> bool)
    requires forall x | x in s :: q(x) <==> !p(x)
    ensures multiset(Filter(s, p)) + multiset(Filter(s, q)) == multiset(s)
    decreases s
  {
    if s != [] {
      assert s == [s[0]] + s[1..];
      FilterBag(s[1..], p, q);
    }
  }

  lemma RotatedBag(games: seq<Slug>, cursor: Option<Slug>)
    ensures multiset(Rotated(games, cursor)) == multiset(games)
  {
    if cursor.Some? && cursor.value in games {
      var at := IndexOf(games, cursor.value);
      assert games == games[..at] + games[at..];
    }
  }

  lemma YesFirst<T>(yes: seq<T>, no: seq<T>, p: T -> bool)
    requires (forall x | x in yes :: p(x)) && forall x | x in no :: !p(x)
    ensures forall i, j | 0 <= i < j < |yes + no| && p((yes + no)[j]) :: p((yes + no)[i])
  {
    assert forall k | 0 <= k < |yes| :: (yes + no)[k] in yes;
    assert forall k | |yes| <= k < |yes + no| :: (yes + no)[k] in no;
  }

  /** A run takes every game exactly once, and every preferred game before any other. */
  lemma RunOrderExact(games: seq<Slug>, cursor: Option<Slug>, preferred: Option<seq<Slug>>)
    ensures multiset(RunOrder(games, cursor, preferred)) == multiset(games)
    ensures var order := RunOrder(games, cursor, preferred);
      preferred.Some? ==>
        forall i, j | 0 <= i < j < |order| && order[j] in preferred.value :: order[i] in preferred.value
  {
    hide Filter, Rotated;
    RotatedBag(games, cursor);
    if preferred.Some? {
      var rotated, listed, other := Rotated(games, cursor), Among(preferred.value), NotAmong(preferred.value);
      FilterBag(rotated, listed, other);
      FilterMembers(rotated, listed);
      FilterMembers(rotated, other);
      YesFirst(Filter(rotated, listed), Filter(rotated, other), listed);
    }
  }

  lemma {:induction false} FilterKeepsMember<T>(s: seq<T>, p: T -> bool, i: nat)
    requires i < |Filter(s, p)|
    ensures exists k :: 0 <= k < |s| && s[k] == Filter(s, p)[i]
    decreases s
  {
    if p(s[0]) && i == 0 {
      assert s[0] == Filter(s, p)[0];
    } else {
      var d := if p(s[0]) then 1 else 0;
      FilterKeepsMember(s[1..], p, i - d);
      var k :| 0 <= k < |s[1..]| && s[1..][k] == Filter(s[1..], p)[i - d];
      assert s[k + 1] == Filter(s, p)[i];
    }
  }

  /** Two entries of a filtered list come in the order they had. */
  lemma {:induction false} FilterOrder<T>(s: seq<T>, p: T -> bool, i: nat, j: nat)
    requires i < j < |Filter(s, p)|
    ensures exists k, l :: 0 <= k < l < |s| && s[k] == Filter(s, p)[i] && s[l] == Filter(s, p)[j]
    decreases s
  {
    var rest := Filter(s[1..], p);
    assert Filter(s, p) == (if p(s[0]) then [s[0]] else []) + rest;
    if p(s[0]) && i == 0 {
      assert Filter(s, p)[j] == rest[j - 1];
      FilterKeepsMember(s[1..], p, j - 1);
      var l :| 0 <= l < |s[1..]| && s[1..][l] == rest[j - 1];
      assert s[0] == Filter(s, p)[0] && s[l + 1] == Filter(s, p)[j];
    } else {
      var d := if p(s[0]) then 1 else 0;
      assert forall n | d <= n < |Filter(s, p)| :: Filter(s, p)[n] == rest[n - d];
      FilterOrder(s[1..], p, i - d, j - d);
      var k, l :| 0 <= k < l < |s[1..]| && s[1..][k] == rest[i - d] && s[1..][l] == rest[j - d];
      assert s[k + 1] == s[1..][k] && s[l + 1] == s[1..][l];
    }
  }

  /**
   Apart from moving the preferred games to the front, a run takes the games in the order of the cycle: two games that are
   both preferred, or both not, come in the order they have from the cursor on.
   */
  lemma RunOrderKeepsCycle(games: seq<Slug>, cursor: Option<Slug>, preferred: Option<seq<Slug>>, i: nat, j: nat)
    requires i < j < |RunOrder(games, cursor, preferred)|
    ensures var order, cycle := RunOrder(games, cursor, preferred), Rotated(games, cursor);
      preferred.None? || (order[i] in preferred.value <==> order[j] in preferred.value) ==>
        exists k, l :: 0 <= k < l < |cycle| && cycle[k] == order[i] && cycle[l] == order[j]
  {
    hide Filter, Rotated;
    var order, cycle := RunOrder(games, cursor, preferred), Rotated(games, cursor);
    if preferred.Some? {
      var yes, no := Filter(cycle, Among(preferred.value)), Filter(cycle, NotAmong(preferred.value));
      FilterMembers(cycle, Among(preferred.value));
      FilterMembers(cycle, NotAmong(preferred.value));
      assert order == yes + no;
      assert forall n | 0 <= n < |yes| :: order[n] == yes[n] && yes[n] in yes;
      assert forall n | |yes| <= n < |order| :: order[n] == no[n - |yes|] && no[n - |yes|] in no;
      if j < |yes| { FilterOrder(cycle, Among(preferred.value), i, j); }
      if i >= |yes| { FilterOrder(cycle, NotAmong(preferred.value), i - |yes|, j - |yes|); }
    } else {
      assert order[i] == cycle[i] && order[j] == cycle[j];
    }
  }

  lemma {:induction false} IndexIs(games: seq<Slug>, i: nat)
    requires Distinct(games) && i < |games|
    ensures IndexOf(games, games[i]) == i
    decreases i
  {
    if i > 0 { IndexIs(games[1..], i - 1); }
  }

  lemma {:induction false} IndexFinds(games: seq<Slug>, slug: Slug)
    requires slug in games
    ensures IndexOf(games, slug) < |games|
    decreases games
  {
    if games[0] != slug { IndexFinds(games[1..], slug); }
  }

  lemma NextAt(games: seq<Slug>, i: nat)
    requires Distinct(games) && i < |games|
    ensures NextGame(games, games[i]) == games[(i + 1) % |games|]
  {
    IndexIs(games, i);
  }

  /** Starting a run elsewhere in the cycle does not change which game follows which. */
  lemma RotationKeepsCycle(games: seq<Slug>, cursor: Option<Slug>, slug: Slug)
    requires Distinct(games) && slug in games
    ensures NextGame(Rotated(games, cursor), slug) == NextGame(games, slug)
    ensures NextGame(games, slug) in games
  {
    hide IndexOf, NextGame, Distinct;
    var i :| 0 <= i < |games| && games[i] == slug;
    NextAt(games, i);
    if cursor.Some? && cursor.value in games {
      IndexFinds(games, cursor.value);
      var at := IndexOf(games, cursor.value);
      RotatedDistinct(games, at);
      RotatedAt(games, at, i);
      NextAt(Rotated(games, cursor), if at <= i then i - at else i - at + |games|);
    }
  }

  lemma RotatedAt(games: seq<Slug>, at: nat, i: nat)
    requires at < |games| && i < |games|
    ensures var n, j, rotated := |games|, if at <= i then i - at else i - at + |games|, games[at..] + games[..at];
      j < n && rotated[j] == games[i] && rotated[(j + 1) % n] == games[(i + 1) % n]
  {
    var n, rotated := |games|, games[at..] + games[..at];
    assert forall k | 0 <= k < n :: rotated[k] == if k < n - at then games[at + k] else games[k - (n - at)];
    var j := if at <= i then i - at else i - at + n;
    WrapsAround(i, n);
    WrapsAround(j, n);
    var i', j' := if i + 1 == n then 0 else i + 1, if j + 1 == n then 0 else j + 1;
    assert rotated[j'] == games[i'];
  }

  lemma WrapsAround(i: nat, n: nat)
    requires i < n
    ensures (i + 1) % n == if i + 1 == n then 0 else i + 1
  {
  }

  lemma RotatedDistinct(games: seq<Slug>, at: nat)
    requires at < |games| && Distinct(games)
    ensures Distinct(games[at..] + games[..at])
  {
  }

  // ----- the cursor over a history -----

  /** A request that was granted a first-shard or normal lease; second shards do not move the turn. */
  ghost predicate TakesTurn(s: State, r: Request) {
    r.op.Claims? && Step(s, r).1.Lease? && Step(s, r).1.shardIndex != 2
  }

  ghost predicate Starts(s: State, r: Request) {
    r.op.Begin? && Step(s, r).1.Started?
  }

  lemma ScheduleTurn(s: State, r: Request, accepted: set<Slug>)
    ensures var (s', reply) := Schedule(s, r, accepted);
      && s'.games == s.games && s'.modeGames == s.modeGames
      && s'.cursor == (if reply.Lease? && reply.shardIndex != 2 then Some(NextGame(s.games, reply.slug)) else s.cursor)
  {
    hide PickPrimary, PickSecondary, PickNormal, CountUnresolved, NodeTaken, SpreadsFirst, Touch, NextGame, RunningKeys,
      NormalRunning;
  }

  lemma LeasedTurn(s: State, r: Request, key: ClaimKey)
    requires key in s.board.claims
    ensures var s' := LeasedStep(s, r, key).0; s'.games == s.games && s'.modeGames == s.modeGames && s'.cursor == s.cursor
  {
    hide ReleaseNode, AfterSpecial, Reserved, LocalTargets, ValidReport, BackoffMs, Dequeue, Enqueue, Finished, SyncGame,
      Fresh, ValidBatch, Window, Known, StoreRounds, Touch, Commit, Throttled;
  }

  lemma BeginTurn(s: State, r: Request)
    requires r.op.Begin?
    ensures var (s', reply) := Step(s, r);
      && s'.cursor == s.cursor
      && (if reply.Started? then
            r.op.handoff.Some?
            && (s'.games, s'.modeGames) == ChosenGames(r.op, if s.cursor.Some? then s.cursor else r.op.handoff.value.slug)
          else s'.games == s.games && s'.modeGames == s.modeGames)
  {
    hide ChosenGames;
  }

  /** The cursor moves with the turn and nothing else, and only a new run changes the order of the games. */
  lemma TurnStep(s: State, r: Request)
    ensures var (s', reply) := Step(s, r);
      && s'.cursor == (if TakesTurn(s, r) then Some(NextGame(s.games, reply.slug)) else s.cursor)
      && (!Starts(s, r) ==> s'.games == s.games && s'.modeGames == s.modeGames)
  {
    hide Schedule, LeasedStep, BeginStep, NextGame, RunningKeys, RunningOn;
    var key := WorkerClaim(s.board.claims, r.worker, SlugOf(r.op));
    if r.op.Begin? {
      BeginTurn(s, r);
    } else if r.op.Claims? {
      ScheduleTurn(s, r, r.op.accepted);
    } else if key.Some? {
      LeasedTurn(s, r, key.value);
    }
  }

  lemma {:induction false} GamesKept(states: seq<State>, rs: seq<Request>, b: nat, i: nat)
    requires Behavior(states, rs) && b <= i <= |rs|
    requires forall k {:trigger rs[k]} | b <= k < |rs| && k < i :: !Starts(states[k], rs[k])
    ensures states[i].games == states[b].games && states[i].modeGames == states[b].modeGames
    decreases i
  {
    hide Step, Starts;
    if b < i {
      GamesKept(states, rs, b, i - 1);
      TurnStep(states[i - 1], rs[i - 1]);
    }
  }

  lemma {:induction false} CursorKept(states: seq<State>, rs: seq<Request>, i: nat, j: nat)
    requires Behavior(states, rs) && i <= j <= |rs|
    requires forall k {:trigger rs[k]} | i <= k < |rs| && k < j :: !TakesTurn(states[k], rs[k])
    ensures states[j].cursor == states[i].cursor
    decreases j
  {
    hide Step, TakesTurn;
    if i < j {
      CursorKept(states, rs, i, j - 1);
      TurnStep(states[j - 1], rs[j - 1]);
    }
  }

  /** The active games that a request allows, in registry order. */
  function Active(op: Op): seq<Game>
    requires op.Begin?
  {
    if op.allowed.None? then op.active else Filter(op.active, (g: Game) => g.slug in op.allowed.value)
  }

  function Selected(op: Op): seq<Slug>
    requires op.Begin?
  {
    SlugsOf(Active(op))
  }

  lemma ChosenAre(op: Op, cursor: Option<Slug>)
    requires op.Begin?
    ensures var (games, modeGames) := ChosenGames(op, cursor);
      games == RunOrder(Selected(op), cursor, op.preferred) && forall slug | slug in modeGames :: slug in games
  {
    var modes := SlugsOf(Filter(Active(op), (g: Game) => g.modes));
    var games := RunOrder(Selected(op), cursor, op.preferred);
    hide RunOrder, Filter;
    FilterMembers(games, (g: Slug) => g in modes);
  }

  // ----- the leased game is one of the run -----

  lemma {:induction false} NormalPickIsListed(b: Board, slugs: seq<Slug>, modeGames: seq<Slug>, accepted: set<Slug>, now: int)
    ensures var pick := PickNormal(b, slugs, modeGames, accepted, now).1; pick.Some? ==> pick.value in slugs
    decreases slugs
  {
    if slugs != [] {
      NormalPickIsListed(b, slugs[1..], modeGames, accepted, now);
      NormalPickIsListed(AcceptNormal(b, slugs[0]), slugs[1..], modeGames, accepted, now);
    }
  }

  lemma TurnIsListed(s: State, r: Request)
    requires TakesTurn(s, r) && forall slug | slug in s.modeGames :: slug in s.games
    ensures Step(s, r).1.slug in s.games
  {
    hide PickPrimary, PickSecondary, PickNormal, CountUnresolved, NodeTaken, SpreadsFirst, Touch, NextGame, RunningKeys,
      NormalRunning, RunningOn;
    LeaseSafety.PickIsOpen(s.board, s.modeGames, r.op.accepted, r.now);
    var b := PickPrimary(s.board, s.modeGames, r.op.accepted, r.now).0;
    NormalPickIsListed(b, s.games, s.modeGames, r.op.accepted, r.now);
  }

  lemma NextIsListed(games: seq<Slug>, slug: Slug)
    requires slug in games
    ensures NextGame(games, slug) in games
  {
    IndexFinds(games, slug);
  }

  // ----- from one run to the next -----

  lemma StartedGames(states: seq<State>, rs: seq<Request>, b: nat)
    requires Behavior(states, rs) && b < |rs| && Starts(states[b], rs[b])
    ensures var s := states[b + 1];
      && (states[b].cursor.Some? ==> s.games == RunOrder(Selected(rs[b].op), states[b].cursor, rs[b].op.preferred))
      && (exists from :: s.games == RunOrder(Selected(rs[b].op), from, rs[b].op.preferred))
      && forall slug | slug in s.modeGames :: slug in s.games
  {
    BeginTurn(states[b], rs[b]);
    hide Step, ChosenGames, RunOrder, Selected;
    ChosenAre(rs[b].op, if states[b].cursor.Some? then states[b].cursor else rs[b].op.handoff.value.slug);
  }

  /** A run from `b` to `j`, whose last first-shard or normal lease was granted at `i`. */
  ghost predicate LastTurn(states: seq<State>, rs: seq<Request>, b: nat, i: nat, j: nat)
    requires Behavior(states, rs)
  {
    && b < i < j < |rs| && Starts(states[b], rs[b]) && Starts(states[j], rs[j])
    && (forall k {:trigger rs[k]} | b < k < j :: !Starts(states[k], rs[k]))
    && TakesTurn(states[i], rs[i]) && forall k {:trigger rs[k]} | i < k < j :: !TakesTurn(states[k], rs[k])
  }

  /** The game whose turn is next after the lease granted at `i`, in the order of the run it was granted in. */
  ghost function NextTurn(states: seq<State>, rs: seq<Request>, i: nat): Slug
    requires Behavior(states, rs) && i < |rs| && TakesTurn(states[i], rs[i])
  {
    NextGame(states[i].games, Step(states[i], rs[i]).1.slug)
  }

  /**
   The turn carries over, for runs begun with any list of allowed or preferred games: the next run's order is its own games
   rotated to the one that follows, in the order of the earlier run, the game last leased there, with the preferred ones
   moved to the front. The leased game and the one that follows are games of the earlier run.
   */
  lemma NextRunContinues(states: seq<State>, rs: seq<Request>, b: nat, i: nat, j: nat)
    requires Behavior(states, rs) && LastTurn(states, rs, b, i, j)
    ensures Step(states[i], rs[i]).1.slug in states[i].games && NextTurn(states, rs, i) in states[i].games
    ensures states[j + 1].games == RunOrder(Selected(rs[j].op), Some(NextTurn(states, rs, i)), rs[j].op.preferred)
  {
    hide Step, Starts, NextGame, RunOrder, Selected;
    StartedGames(states, rs, b);
    GamesKept(states, rs, b + 1, i);
    TurnIsListed(states[i], rs[i]);
    NextIsListed(states[i].games, Step(states[i], rs[i]).1.slug);
    TurnStep(states[i], rs[i]);
    CursorKept(states, rs, i + 1, j);
    StartedGames(states, rs, j);
  }

  lemma RotatedHead(games: seq<Slug>, cursor: Slug)
    requires cursor in games
    ensures Rotated(games, Some(cursor)) != [] && Rotated(games, Some(cursor))[0] == cursor
  {
    IndexFinds(games, cursor);
  }

  lemma {:induction false} FilterHead<T>(s: seq<T>, p: T -> bool)
    ensures Filter(s, p) != [] ==>
      exists i :: 0 <= i < |s| && s[i] == Filter(s, p)[0] && p(s[i]) && forall k | 0 <= k < i :: !p(s[k])
    ensures Filter(s, p) == [] ==> forall k | 0 <= k < |s| :: !p(s[k])
    decreases s
  {
    if s != [] && !p(s[0]) {
      FilterHead(s[1..], p);
      if Filter(s, p) != [] {
        var i :| 0 <= i < |s[1..]| && s[1..][i] == Filter(s[1..], p)[0] && p(s[1..][i])
                 && forall k | 0 <= k < i :: !p(s[1..][k]);
        assert s[i + 1] == s[1..][i];
        assert forall k | 1 <= k < i + 1 :: s[k] == s[1..][k - 1];
      } else {
        assert forall k | 1 <= k < |s| :: s[k] == s[1..][k - 1];
      }
    }
  }

  /**
   So the next run begins with that game, if it still is one of the run's; with a list of preferred games, it begins with
   the first of them from that game on, around the cycle, when there is any.
   */
  lemma NextRunBegins(states: seq<State>, rs: seq<Request>, b: nat, i: nat, j: nat)
    requires Behavior(states, rs) && LastTurn(states, rs, b, i, j)
    requires NextTurn(states, rs, i) in Selected(rs[j].op)
    ensures var next, cycle := NextTurn(states, rs, i), Rotated(Selected(rs[j].op), Some(NextTurn(states, rs, i)));
      var games := states[j + 1].games;
      && cycle != [] && cycle[0] == next && games != []
      && (if rs[j].op.preferred.Some? && exists g :: g in cycle && g in rs[j].op.preferred.value then
            exists k :: 0 <= k < |cycle| && cycle[k] == games[0] && cycle[k] in rs[j].op.preferred.value
                        && forall l | 0 <= l < k :: cycle[l] !in rs[j].op.preferred.value
          else games[0] == next)
  {
    hide Step, NextGame, Selected, Rotated, Filter;
    NextRunContinues(states, rs, b, i, j);
    var next := NextTurn(states, rs, i);
    var cycle := Rotated(Selected(rs[j].op), Some(next));
    RotatedHead(Selected(rs[j].op), next);
    if rs[j].op.preferred.Some? {
      PreferredHead(cycle, rs[j].op.preferred.value);
    }
  }

  lemma PreferredHead(cycle: seq<Slug>, preferred: seq<Slug>)
    requires cycle != []
    ensures var order := Filter(cycle, Among(preferred)) + Filter(cycle, NotAmong(preferred));
      && order != []
      && (if exists g :: g in cycle && g in preferred then
            exists k :: 0 <= k < |cycle| && cycle[k] == order[0] && cycle[k] in preferred
                        && forall l | 0 <= l < k :: cycle[l] !in preferred
          else order[0] == cycle[0])
  {
    hide Filter;
    var yes, no := Filter(cycle, Among(preferred)), Filter(cycle, NotAmong(preferred));
    FilterHead(cycle, Among(preferred));
    FilterHead(cycle, NotAmong(preferred));
    assert yes != [] ==> (yes + no)[0] == yes[0];
    assert yes == [] ==> yes + no == no;
    if yes == [] {
      assert forall k | 0 <= k < |cycle| :: cycle[k] !in preferred;
      assert NotAmong(preferred)(cycle[0]);
    }
  }

  /** Two runs over the same whole list continue the cycle of that list, wherever the first of them had begun. */
  lemma PlainRunsContinue(states: seq<State>, rs: seq<Request>, b: nat, i: nat, j: nat)
    requires Behavior(states, rs) && LastTurn(states, rs, b, i, j)
    requires rs[b].op.allowed.None? && rs[b].op.preferred.None? && rs[j].op.allowed.None? && rs[j].op.preferred.None?
    requires rs[b].op.active == rs[j].op.active && Distinct(SlugsOf(rs[j].op.active))
    ensures var games := SlugsOf(rs[j].op.active);
      && states[j + 1].games != []
      && states[j + 1].games[0] == NextGame(games, Step(states[i], rs[i]).1.slug)
  {
    hide Step, NextGame, Rotated, SlugsOf, Distinct;
    var games, slug := SlugsOf(rs[j].op.active), Step(states[i], rs[i]).1.slug;
    NextRunContinues(states, rs, b, i, j);
    StartedGames(states, rs, b);
    GamesKept(states, rs, b + 1, i);
    var from :| states[b + 1].games == RunOrder(Selected(rs[b].op), from, rs[b].op.preferred);
    assert states[i].games == Rotated(games, from);
    RotatedBag(games, from);
    assert slug in multiset(Rotated(games, from));
    RotationKeepsCycle(games, from, slug);
    RotatedHead(games, NextGame(games, slug));
  }
}
