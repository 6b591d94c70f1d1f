/**
 The line of waiting requests. A comment in the program still calls it first-in-first-out; what it does is nothing but
 remember who asked.
 */
module WaitingLine {
  import opened Base
  import opened CoordinatorTypes
  import opened CoordinatorSteps

  function Relined(s: State, ws: seq<Waiter>): State {
    s.(gate := s.gate.(waiters := ws))
  }

  /** The same reply, and the same state but for the waiting line. */
  ghost predicate SameButLine(a: (State, Reply), b: (State, Reply)) {
    a.1 == b.1 && Relined(a.0, []) == Relined(b.0, [])
  }

  lemma GrantIgnoresLine(s: State, ws: seq<Waiter>, r: Request, key: ClaimKey, special: bool, shard: nat)
    ensures SameButLine(Grant(Relined(s, ws), r, key, special, shard), Grant(s, r, key, special, shard))
  {
    hide NodeTaken, SpreadsFirst, Touch, NextGame;
  }

  lemma ClaimIgnoresLine(s: State, ws: seq<Waiter>, r: Request, accepted: set<Slug>)
    ensures SameButLine(ClaimStep(Relined(s, ws), r, accepted), ClaimStep(s, r, accepted))
  {
    hide Schedule, RunningKeys, RunningOn, PerNode, Min;
    ScheduleIgnoresLine(s, ws, r, accepted);
  }

  lemma ScheduleIgnoresLine(s: State, ws: seq<Waiter>, r: Request, accepted: set<Slug>)
    ensures SameButLine(Schedule(Relined(s, ws), r, accepted), Schedule(s, r, accepted))
  {
    hide PickPrimary, PickSecondary, PickNormal, CountUnresolved, Grant;
    var (b1, primary) := PickPrimary(s.board, s.modeGames, accepted, r.now);
    var s1 := s.(board := b1);
    assert Relined(s1, ws) == Relined(s, ws).(board := b1);
    if primary.Some? { GrantIgnoresLine(s1, ws, r, Primary(primary.value), true, 1); }
    var secondary := PickSecondary(b1, s.modeGames, r.node, r.now);
    if secondary.Some? { GrantIgnoresLine(s1, ws, r, Secondary(secondary.value), true, 2); }
    var (b2, normal) := PickNormal(b1, s.games, s.modeGames, accepted, r.now);
    assert Relined(s.(board := b2), ws) == Relined(s, ws).(board := b2);
    if normal.Some? { GrantIgnoresLine(s.(board := b2), ws, r, Primary(normal.value), false, 0); }
  }

  lemma PermitRepliesAlike(s: State, ws: seq<Waiter>, r: Request, slug: Slug, key: RequestKey, full: bool)
    ensures PermitStep(Relined(s, ws), r, slug, key, full).1 == PermitStep(s, r, slug, key, full).1
  {
    hide Enqueue, Dequeue, Max, Min;
  }

  /** A state in which a permit has been granted. */
  ghost function Permitted(s: State, r: Request, slug: Slug, key: RequestKey, full: bool): State {
    var node := EgressOf(s, r);
    s.(gate := s.gate.(permits := s.gate.permits[key := Permit(slug, r.worker, node, r.now)],
                       nodeUntil := s.gate.nodeUntil[node :=
                         Max(Get(s.gate.nodeUntil, node, 0), r.now + s.topology.nodeMs)]),
       journal := if full then s.journal[(slug, key) := Entry(None, false)] else s.journal)
  }

  lemma PermitMoves(s: State, r: Request, slug: Slug, key: RequestKey, full: bool)
    ensures var (s', reply) := PermitStep(s, r, slug, key, full);
      Relined(s', []) == if reply == Granted then Permitted(Relined(s, []), r, slug, key, full) else Relined(s, [])
  {
    hide Enqueue, Dequeue, Max, Min;
  }

  lemma PermitIgnoresLine(s: State, ws: seq<Waiter>, r: Request, slug: Slug, key: RequestKey, full: bool)
    ensures SameButLine(PermitStep(Relined(s, ws), r, slug, key, full), PermitStep(s, r, slug, key, full))
  {
    hide PermitStep, Permitted;
    PermitRepliesAlike(s, ws, r, slug, key, full);
    PermitMoves(s, r, slug, key, full);
    PermitMoves(Relined(s, ws), r, slug, key, full);
    assert Relined(Relined(s, ws), []) == Relined(s, []);
  }

  lemma ResponseIgnoresLine(s: State, ws: seq<Waiter>, r: Request, slug: Slug, key: RequestKey, outcome: Outcome,
                            usable: Option<bool>, retryAfter: RetryAfter)
    ensures SameButLine(ResponseStep(Relined(s, ws), r, slug, key, outcome, usable, retryAfter),
                        ResponseStep(s, r, slug, key, outcome, usable, retryAfter))
  {
    hide Window, NodesOf, ReleaseNode;
  }

  lemma ReserveIgnoresLine(s: State, ws: seq<Waiter>, r: Request, key: ClaimKey, counts: map<Mode, int>,
                           targets: map<Mode, int>)
    requires key in s.board.claims
    ensures SameButLine(ReserveStep(Relined(s, ws), r, key, counts, targets), ReserveStep(s, r, key, counts, targets))
  {
    hide Reserved, LocalTargets, ValidReport;
  }

  lemma AppendIgnoresLine(s: State, ws: seq<Waiter>, r: Request, slug: Slug, docs: seq<Doc>)
    ensures SameButLine(AppendStep(Relined(s, ws), r, slug, docs), AppendStep(s, r, slug, docs))
  {
    hide ValidBatch, Fresh, Known, Touch, StoreRounds, Commit, CreditQuota, LacksCounts;
  }

  lemma DoneIgnoresLine(s: State, ws: seq<Waiter>, r: Request, key: ClaimKey, status: Status)
    requires key in s.board.claims
    ensures SameButLine(DoneStep(Relined(s, ws), r, key, status), DoneStep(s, r, key, status))
  {
    hide AfterSpecial, SyncGame, Finished;
  }

  lemma AckIgnoresLine(s: State, ws: seq<Waiter>, slug: Slug, hash: Hash)
    ensures SameButLine(AckStep(Relined(s, ws), slug, hash), AckStep(s, slug, hash))
  {
    hide Known, Touch;
  }

  /** The state a run is started from. */
  ghost function Opened(s: State, r: Request): State
    requires r.op.Begin? && r.op.handoff.Some?
  {
    var s1 := if s.owner.Some? then s.(owner := None, gate := s.gate.(permits := map[])) else s;
    s1.(gate := s1.gate.(until := Max(s1.gate.until, r.op.handoff.value.until)))
  }

  lemma StartReads(a: State, b: State, r: Request, handoff: Option<Slug>)
    requires r.op.Begin? && a.daemon == b.daemon && a.cursor == b.cursor && a.gate.until == b.gate.until
    requires a.disk == b.disk && a.journal == b.journal
    ensures StartRun(a, r, handoff) == StartRun(b, r, handoff)
  {
    hide ChosenGames;
  }

  lemma BeginIgnoresLine(s: State, ws: seq<Waiter>, r: Request)
    requires r.op.Begin?
    ensures SameButLine(BeginStep(Relined(s, ws), r), BeginStep(s, r))
  {
    hide StartRun, Max;
    if r.op.handoff.Some? {
      StartReads(Opened(s, r), Opened(Relined(s, ws), r), r, r.op.handoff.value.slug);
    }
  }

  lemma LeasedIgnoresLine(s: State, ws: seq<Waiter>, r: Request, key: ClaimKey)
    requires key in s.board.claims
    ensures SameButLine(LeasedStep(Relined(s, ws), r, key), LeasedStep(s, r, key))
  {
    hide PermitStep, ResponseStep, ReserveStep, AppendStep, AckStep, DoneStep;
    match r.op {
      case ReserveModes(_, counts, targets) => ReserveIgnoresLine(s, ws, r, key, counts, targets);
      case Append(slug, docs) => AppendIgnoresLine(s, ws, r, slug, docs);
      case Ack(slug, hash) => AckIgnoresLine(s, ws, slug, hash);
      case Done(_, status) => DoneIgnoresLine(s, ws, r, key, status);
      case Permits(slug, requestKey, full) => PermitIgnoresLine(s, ws, r, slug, requestKey, full);
      case Response(slug, requestKey, outcome, usable, retryAfter) =>
        ResponseIgnoresLine(s, ws, r, slug, requestKey, outcome, usable, retryAfter);
      case _ =>
    }
  }

  /** The cases in which a request is turned away, the run ends, or the host is overloaded. */
  lemma Unmoved(s: State, ws: seq<Waiter>, r: Request)
    ensures forall reply :: SameButLine((Relined(s, ws), reply), (s, reply))
    ensures SameButLine((Relined(s, ws).(overloaded := true), Empty), (s.(overloaded := true), Empty))
    ensures var ended := s.gate.(permits := map[], waiters := []);
      SameButLine((Relined(s, ws).(owner := None, gate := Relined(s, ws).gate.(permits := map[], waiters := [])), Empty),
                  (s.(owner := None, gate := ended), Empty))
  {
  }

  /**
   The waiting line decides nothing: although requests are lined up as they arrive, no reply and no other part of the
   state ever depends on who is waiting.
   */
  lemma WaitingLineDecidesNothing(s: State, ws: seq<Waiter>, r: Request)
    ensures SameButLine(Step(Relined(s, ws), r), Step(s, r))
  {
    hide ClaimStep, LeasedStep, BeginStep, SameButLine;
    Unmoved(s, ws, r);
    var key := WorkerClaim(s.board.claims, r.worker, SlugOf(r.op));
    if r.op.Claims? {
      ClaimIgnoresLine(s, ws, r, r.op.accepted);
    } else if r.op.Begin? {
      BeginIgnoresLine(s, ws, r);
    } else if key.Some? {
      LeasedIgnoresLine(s, ws, r, key.value);
    }
  }
}
