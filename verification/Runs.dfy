/** How a run begins and ends, in terms of the request: what it takes over, what it starts afresh, and for which games. */
module Runs {
  import opened Base
  import opened CoordinatorTypes
  import opened CoordinatorSteps
  import opened TurnOrder
  import LeaseSafety

  // ----- when a run begins -----

  /** The old run is over or gone, the handoff is proved, and the lists name something and not too much. */
  predicate MayBegin(s: State, op: Op)
    requires op.Begin?
  {
    && (s.owner == None || op.attemptCompleted) && op.handoff.Some?
    && (op.allowed.Some? ==> op.allowed.value != []) && (op.preferred.Some? ==> |op.preferred.value| <= 500)
  }

  /** The games of a request that a run may take, and those of them that have purchase modes. */
  ghost function Takes(op: Op): set<Slug>
    requires op.Begin?
  {
    set g | g in op.active && (op.allowed.Some? ==> g.slug in op.allowed.value) :: g.slug
  }

  ghost function TakesForPurchases(op: Op): set<Slug>
    requires op.Begin?
  {
    set g | g in op.active && g.modes && (op.allowed.Some? ==> g.slug in op.allowed.value) :: g.slug
  }

  /** Nothing of the run before is left but the pause, the turn, the files and the journal. */
  ghost predicate Afresh(s: State, s': State, r: Request)
    requires r.op.Begin?
  {
    && s'.owner == Some(r.run) && s'.deadline == r.now + r.op.durationMs && s'.overloaded == false
    && s'.board.claims == map[] && s'.board.quotas == map[]
    && s'.gate.permits == map[] && s'.gate.waiters == [] && s'.gate.nodeUntil == map[] && s'.gate.nodeThrottle == map[]
    && s'.gate.halted == {} && s'.gate.rateNodes == [] && s'.nextClaimAt == 0 && s'.responses == 0
    && s'.disk == s.disk && s'.journal == s.journal && s'.cursor == s.cursor && s'.daemon == s.daemon
    && s'.topology == r.op.budget.(maxShards := if r.op.budget.maxShards > 2 then 2 else r.op.budget.maxShards)
  }

  /**
   A run begins exactly when it may. It starts afresh with the budget of the request, two shards a game at most, and with the
   longer of the old pause and the one handed over.
   */
  lemma RunBegins(s: State, r: Request)
    requires r.op.Begin?
    ensures var (s', reply) := Step(s, r);
      && (reply.Started? <==> MayBegin(s, r.op))
      && (reply.Started? ==>
            && Afresh(s, s', r)
            && s'.gate.until == Max(s.gate.until, r.op.handoff.value.until)
            && reply == Started(s'.deadline, s'.gate.until, |s'.games|))
      && (!reply.Started? ==> reply == Refused)
  {
    hide ChosenGames;
  }

  /**
   A begin that is refused changes nothing but this in the daemon's memory: the old run loses the lock when it is known to be
   over, and the pause is taken over once the handoff is proved.
   */
  lemma RefusedBegin(s: State, r: Request)
    requires r.op.Begin? && !MayBegin(s, r.op)
    ensures var s' := Step(s, r).0;
      if !s.daemon || (s.owner.Some? && !r.op.attemptCompleted) then s' == s
      else
        && s'.owner == None
        && s'.gate.until == (if r.op.handoff.Some? then Max(s.gate.until, r.op.handoff.value.until) else s.gate.until)
        && s'.board == s.board && s'.disk == s.disk && s'.journal == s.journal && s'.games == s.games
        && s'.gate.permits == if s.owner.Some? then map[] else s.gate.permits
  {
    hide ChosenGames, Max;
  }

  lemma {:induction false} SlugsAre(games: seq<Game>)
    ensures forall slug :: slug in SlugsOf(games) <==> exists g :: g in games && g.slug == slug
  {
    forall g | g in games ensures g.slug in SlugsOf(games) {
      var i :| 0 <= i < |games| && games[i] == g;
      assert SlugsOf(games)[i] == g.slug;
    }
    forall slug | slug in SlugsOf(games) ensures exists g :: g in games && g.slug == slug {
      var i :| 0 <= i < |games| && SlugsOf(games)[i] == slug;
      assert games[i] in games;
    }
  }

  lemma ActiveAre(op: Op)
    requires op.Begin?
    ensures forall slug :: slug in Selected(op) <==> slug in Takes(op)
    ensures forall slug :: slug in SlugsOf(Filter(Active(op), (g: Game) => g.modes)) <==> slug in TakesForPurchases(op)
  {
    hide Filter, SlugsOf;
    if op.allowed.Some? { FilterMembers(op.active, (g: Game) => g.slug in op.allowed.value); }
    var active := Active(op);
    assert forall g :: g in active <==> g in op.active && (op.allowed.Some? ==> g.slug in op.allowed.value);
    FilterMembers(active, (g: Game) => g.modes);
    SlugsAre(active);
    SlugsAre(Filter(active, (g: Game) => g.modes));
  }

  lemma OrderKeepsGames(games: seq<Slug>, cursor: Option<Slug>, preferred: Option<seq<Slug>>)
    ensures forall slug :: slug in RunOrder(games, cursor, preferred) <==> slug in games
  {
    hide RunOrder;
    RunOrderExact(games, cursor, preferred);
    forall slug ensures slug in RunOrder(games, cursor, preferred) <==> slug in games {
      assert slug in multiset(RunOrder(games, cursor, preferred)) <==> slug in multiset(games);
    }
  }

  lemma ChosenSets(op: Op, cursor: Option<Slug>)
    requires op.Begin?
    ensures var (games, modeGames) := ChosenGames(op, cursor);
      && (forall slug :: slug in games <==> slug in Takes(op))
      && (forall slug :: slug in modeGames <==> slug in TakesForPurchases(op))
      && modeGames == Filter(games, (g: Slug) => g in TakesForPurchases(op))
  {
    var modes := SlugsOf(Filter(Active(op), (g: Game) => g.modes));
    var games := RunOrder(Selected(op), cursor, op.preferred);
    assert ChosenGames(op, cursor) == (games, Filter(games, (g: Slug) => g in modes));
    hide RunOrder, Filter, SlugsOf, ChosenGames, Active, Takes, TakesForPurchases;
    OrderKeepsGames(Selected(op), cursor, op.preferred);
    ActiveAre(op);
    FilterMembers(games, (g: Slug) => g in modes);
    SameFilter(games, (g: Slug) => g in modes, (g: Slug) => g in TakesForPurchases(op));
    PurchasesAreTaken(op);
  }

  lemma {:induction false} SameFilter<T>(s: seq<T>, p: T -> bool, q: T -> bool)
    requires forall x :: p(x) == q(x)
    ensures Filter(s, p) == Filter(s, q)
    decreases s
  {
    if s != [] { SameFilter(s[1..], p, q); }
  }

  /**
   The games of a run are exactly the active ones that its request allows, and its purchase games exactly those of them that
   the request lists with purchase modes, in the order of the run.
   */
  lemma RunGames(s: State, r: Request)
    requires Starts(s, r)
    ensures var s' := Step(s, r).0;
      && (forall slug :: slug in s'.games <==> slug in Takes(r.op))
      && (forall slug :: slug in s'.modeGames <==> slug in TakesForPurchases(r.op))
      && s'.modeGames == Filter(s'.games, (g: Slug) => g in TakesForPurchases(r.op))
  {
    BeginTurn(s, r);
    hide Step, ChosenGames, Filter, Takes, TakesForPurchases;
    ChosenSets(r.op, if s.cursor.Some? then s.cursor else r.op.handoff.value.slug);
  }

  /** Whose turn it is when a run begins: the game noted on the disk, or, when there is none yet, the one handed over. */
  ghost predicate HasTurn(s: State, r: Request, turn: Slug)
    requires r.op.Begin? && r.op.handoff.Some?
  {
    if s.cursor.Some? then s.cursor == Some(turn) else r.op.handoff.value.slug == Some(turn)
  }

  /** A run begins with the game whose turn it is, if that is one of its games and none of them is preferred. */
  lemma RunTakesItsTurn(s: State, r: Request, turn: Slug)
    requires Starts(s, r) && r.op.handoff.Some? && HasTurn(s, r, turn) && turn in Takes(r.op)
    ensures var games := Step(s, r).0.games;
      games != []
      && if r.op.preferred.Some? && exists g :: g in games && g in r.op.preferred.value then games[0] in r.op.preferred.value
         else games[0] == turn
  {
    BeginTurn(s, r);
    RunGames(s, r);
    ChosenAre(r.op, Some(turn));
    ActiveAre(r.op);
    hide Step, ChosenGames, Filter, Takes, TakesForPurchases, Rotated;
    RotatedHead(Selected(r.op), turn);
    OrderKeepsGames(Selected(r.op), Some(turn), None);
    var cycle := Rotated(Selected(r.op), Some(turn));
    assert forall g :: g in cycle <==> g in Selected(r.op);
    if r.op.preferred.Some? { PreferredHead(cycle, r.op.preferred.value); }
  }

  // ----- which leases a run hands out -----

  lemma LeaseIsListed(s: State, r: Request)
    requires r.op.Claims? && Step(s, r).1.Lease?
    ensures var reply := Step(s, r).1;
      && (reply.specialOnly ==> reply.slug in s.modeGames && reply.shardIndex in {1, 2})
      && (!reply.specialOnly ==> reply.slug in s.games && reply.shardIndex == 0)
  {
    hide PickPrimary, PickSecondary, PickNormal, CountUnresolved, NodeTaken, SpreadsFirst, Touch, NextGame, RunningKeys,
      NormalRunning, RunningOn;
    LeaseSafety.PickIsOpen(s.board, s.modeGames, r.op.accepted, r.now);
    var b := PickPrimary(s.board, s.modeGames, r.op.accepted, r.now).0;
    LeaseSafety.PickSecondarySound(b, s.modeGames, r.node, r.now);
    NormalPickIsListed(b, s.games, s.modeGames, r.op.accepted, r.now);
  }

  /** Purchase leases go only to games that the run's own request lists with purchase modes, and all leases to its games. */
  lemma LeasesFollowTheRequest(states: seq<State>, rs: seq<Request>, b: nat, k: nat)
    requires Behavior(states, rs) && b < k < |rs| && Starts(states[b], rs[b])
    requires forall j {:trigger rs[j]} | b < j < k :: !Starts(states[j], rs[j])
    requires rs[k].op.Claims? && Step(states[k], rs[k]).1.Lease?
    ensures var reply := Step(states[k], rs[k]).1;
      && reply.slug in Takes(rs[b].op)
      && (reply.specialOnly ==> reply.slug in TakesForPurchases(rs[b].op))
  {
    hide Step, Takes, TakesForPurchases, Filter;
    RunGames(states[b], rs[b]);
    GamesKept(states, rs, b + 1, k);
    LeaseIsListed(states[k], rs[k]);
    PurchasesAreTaken(rs[b].op);
  }

  lemma PurchasesAreTaken(op: Op)
    requires op.Begin?
    ensures TakesForPurchases(op) <= Takes(op)
  {
  }

  // ----- when a run ends -----

  /** Only the run in charge can end, and ending takes the lock, the permits and the line, and nothing else. */
  lemma RunEnds(s: State, r: Request)
    requires r.op.End?
    ensures var (s', reply) := Step(s, r);
      if s.owner == Some(r.run) then
        reply == Empty && s' == s.(owner := None, gate := s.gate.(permits := map[], waiters := []))
      else (s', reply) == (s, Refused)
  {
  }

  /** Once another run is in charge, or none, every request of a run but a begin is refused and changes nothing. */
  lemma OnlyTheOwnerActs(s: State, r: Request)
    requires !r.op.Begin? && !r.op.Overload? && s.owner != Some(r.run)
    ensures Step(s, r) == (s, Refused)
  {
  }

  /** Nobody acts on a game without a lease on it. */
  lemma OnlyLeaseholdersAct(s: State, r: Request)
    requires r.op.ReserveModes? || r.op.Append? || r.op.Ack? || r.op.Done? || r.op.Permits? || r.op.Response?
    requires !(exists k | k in s.board.claims :: k.slug == SlugOf(r.op) && s.board.claims[k].worker == Some(r.worker))
    ensures Step(s, r).0 == s && Step(s, r).1 in {Refused, Halted}
  {
  }

  /** A worker that holds both leases of a game acts under the first. */
  lemma ActsUnder(s: State, r: Request, key: ClaimKey)
    ensures WorkerClaim(s.board.claims, r.worker, SlugOf(r.op)) == Some(key) <==>
      && key in s.board.claims && s.board.claims[key].worker == Some(r.worker) && key.slug == SlugOf(r.op)
      && (key.Primary?
          || !(Primary(key.slug) in s.board.claims && s.board.claims[Primary(key.slug)].worker == Some(r.worker)))
  {
  }

  ghost predicate Overloads(s: State, r: Request) {
    r.op.Overload? && s.owner.Some?
  }

  /** After an overload verdict no lease and no permit is granted in that run. */
  lemma {:induction false} OverloadLasts(states: seq<State>, rs: seq<Request>, i: nat, j: nat)
    requires Behavior(states, rs) && i < j <= |rs| && Overloads(states[i], rs[i])
    requires forall k {:trigger rs[k]} | i < k < |rs| && k < j :: !Starts(states[k], rs[k])
    ensures states[j].overloaded
    ensures j < |rs| && (rs[j].op.Claims? || rs[j].op.Permits?) ==>
      Step(states[j], rs[j]).0 == states[j] && Step(states[j], rs[j]).1 in {Halted, Refused}
    decreases j
  {
    hide Step, Starts;
    if j > i + 1 {
      OverloadLasts(states, rs, i, j - 1);
      OverloadStays(states[j - 1], rs[j - 1]);
    } else {
      OverloadSets(states[i], rs[i]);
    }
    if j < |rs| && (rs[j].op.Claims? || rs[j].op.Permits?) { OverloadStops(states[j], rs[j]); }
  }

  /** The verdict is noted for the run in charge, and without one it is dropped. */
  lemma OverloadSets(s: State, r: Request)
    requires r.op.Overload?
    ensures Step(s, r) == (s.(overloaded := s.overloaded || Overloads(s, r)), Empty)
  {
  }

  lemma OverloadStays(s: State, r: Request)
    requires s.overloaded && !Starts(s, r)
    ensures Step(s, r).0.overloaded
  {
    hide ClaimStep, ChosenGames, LeasedStep;
    if r.op.Claims? { ClaimKeepsVerdict(s, r, r.op.accepted); }
    var key := WorkerClaim(s.board.claims, r.worker, SlugOf(r.op));
    if key.Some? { LeaseKeepsVerdict(s, r, key.value); }
  }

  lemma ClaimKeepsVerdict(s: State, r: Request, accepted: set<Slug>)
    requires s.overloaded
    ensures ClaimStep(s, r, accepted).0.overloaded
  {
    hide Schedule;
  }

  lemma LeaseKeepsVerdict(s: State, r: Request, key: ClaimKey)
    requires key in s.board.claims
    ensures LeasedStep(s, r, key).0.overloaded == s.overloaded
  {
    hide ReleaseNode, AfterSpecial, Reserved, LocalTargets, ValidReport, BackoffMs, Dequeue, Enqueue, Finished, SyncGame,
      Fresh, ValidBatch, Window, Known, StoreRounds, Touch, Commit, Throttled;
  }

  lemma OverloadStops(s: State, r: Request)
    requires s.overloaded && (r.op.Claims? || r.op.Permits?)
    ensures Step(s, r).0 == s && Step(s, r).1 in {Halted, Refused}
  {
  }

  // ----- leases are spaced -----

  ghost predicate Grants(s: State, r: Request) {
    r.op.Claims? && Step(s, r).1.Lease?
  }

  /** The earliest next start moves to a lease's time plus the spacing, and is otherwise left alone within a run. */
  lemma NextStart(s: State, r: Request)
    requires !r.op.Begin?
    ensures Step(s, r).0.nextClaimAt == if Grants(s, r) then r.now + s.topology.claimStartSpacingMs else s.nextClaimAt
    ensures Grants(s, r) ==> s.nextClaimAt <= r.now
    ensures Step(s, r).0.topology == s.topology
  {
    hide ClaimStep, LeasedStep;
    if r.op.Claims? { ClaimNextStart(s, r, r.op.accepted); }
    var key := WorkerClaim(s.board.claims, r.worker, SlugOf(r.op));
    if key.Some? { LeasedNextStart(s, r, key.value); }
  }

  lemma ClaimNextStart(s: State, r: Request, accepted: set<Slug>)
    ensures var (s', reply) := ClaimStep(s, r, accepted);
      && s'.nextClaimAt == (if reply.Lease? then r.now + s.topology.claimStartSpacingMs else s.nextClaimAt)
      && (reply.Lease? ==> s.nextClaimAt <= r.now) && s'.topology == s.topology
  {
    hide PickPrimary, PickSecondary, PickNormal, CountUnresolved, NodeTaken, SpreadsFirst, Touch, NextGame, RunningKeys,
      NormalRunning, RunningOn;
  }

  lemma LeasedNextStart(s: State, r: Request, key: ClaimKey)
    requires key in s.board.claims
    ensures var s' := LeasedStep(s, r, key).0; s'.nextClaimAt == s.nextClaimAt && s'.topology == s.topology
  {
    hide ReleaseNode, AfterSpecial, Reserved, LocalTargets, ValidReport, BackoffMs, Dequeue, Enqueue, Finished, SyncGame,
      Fresh, ValidBatch, Window, Known, StoreRounds, Touch, Commit, Throttled;
  }

  /** Within a run any two leases start at least the spacing apart, and one that comes next may start right then. */
  lemma {:induction false} LeasesSpaced(states: seq<State>, rs: seq<Request>, i: nat, j: nat)
    requires Behavior(states, rs) && i < j <= |rs| && Grants(states[i], rs[i])
    requires forall k {:trigger rs[k]} | i <= k < |rs| && k < j :: !rs[k].op.Begin?
    requires forall k {:trigger rs[k]} | i < k < |rs| && k < j :: !Grants(states[k], rs[k])
    ensures states[j].nextClaimAt == rs[i].now + states[i].topology.claimStartSpacingMs
    ensures j < |rs| && Grants(states[j], rs[j]) ==> rs[i].now + states[i].topology.claimStartSpacingMs <= rs[j].now
    decreases j
  {
    hide Step, Grants;
    NextStart(states[i], rs[i]);
    if j > i + 1 {
      LeasesSpaced(states, rs, i, j - 1);
      NextStart(states[j - 1], rs[j - 1]);
    }
    if j < |rs| && Grants(states[j], rs[j]) { GrantWaits(states[j], rs[j]); }
  }

  lemma GrantWaits(s: State, r: Request)
    requires Grants(s, r)
    ensures s.nextClaimAt <= r.now
  {
    hide Step, Grants;
    assert !r.op.Begin? by { GrantIsClaim(s, r); }
    NextStart(s, r);
  }

  lemma GrantIsClaim(s: State, r: Request)
    ensures Grants(s, r) ==> r.op.Claims?
  {
    hide Step;
  }
}
