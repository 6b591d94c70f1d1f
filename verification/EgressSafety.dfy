/**
 The request gate: spacing of one egress, the response to 429, the global pause, the circuit breaker of a node and
 the permits in flight.
 */
module EgressSafety {
  import opened Base
  import opened CoordinatorTypes
  import opened CoordinatorSteps

  /** A request that was granted a permit on an egress. */
  ghost predicate GrantsOn(s: State, r: Request, node: Node) {
    r.op.Permits? && Step(s, r).1 == Granted && GoesOutOn(s, r, node)
  }

  /** The egress a request goes out on: one for all containers when they share it, else the node's own. */
  ghost predicate GoesOutOn(s: State, r: Request, egress: Node) {
    egress == if s.topology.sharedEgress then "local-egress" else r.node
  }

  /** The status that an answer reports: on its own, or in the response it holds, if it holds one. */
  ghost predicate Reports(outcome: Outcome, status: int) {
    || outcome == Compact(status)
    || (outcome.Full? && status == if outcome.response.Some? then outcome.response.value.status else 0)
  }

  /** A request that recorded a 429 for an egress. */
  ghost predicate Records429(s: State, r: Request, node: Node) {
    r.op.Response? && Step(s, r).1.Recorded? && Reports(r.op.outcome, 429) && GoesOutOn(s, r, node)
  }

  ghost predicate OneRun(rs: seq<Request>) {
    forall i {:trigger rs[i]} | 0 <= i < |rs| :: !rs[i].op.Begin?
  }

  // ----- what one step does to the gate -----

  /** Requests that neither begin, end, ask for a permit nor answer one leave the gate alone. */
  predicate Quiet(op: Op) {
    !op.Begin? && !op.End? && !op.Permits? && !op.Response?
  }

  lemma QuietStep(s: State, r: Request)
    requires Quiet(r.op)
    ensures var (s', reply) := Step(s, r);
      s'.gate == s.gate && s'.topology == s.topology && reply != Granted && !reply.Recorded?
      && s'.responses == s.responses && s'.journal == s.journal
  {
    hide Schedule, LeasedStep;
    if r.op.Claims? { ScheduleGate(s, r, r.op.accepted); }
    var key := WorkerClaim(s.board.claims, r.worker, SlugOf(r.op));
    if key.Some? && (r.op.ReserveModes? || r.op.Append? || r.op.Ack? || r.op.Done?) {
      BoardOpsGate(s, r, key.value);
    }
  }

  lemma PermitIs(s: State, r: Request)
    requires r.op.Permits?
    ensures Step(s, r) == (s, Refused) || Step(s, r) == (s, Halted)
      || (s.owner == Some(r.run) && !Egress(s, r.node) && IsHash(r.op.key)
          && Step(s, r) == PermitStep(s, r, r.op.slug, r.op.key, r.op.full))
  {
  }

  lemma ResponseIs(s: State, r: Request)
    requires r.op.Response?
    ensures Step(s, r) == (s, Refused)
      || Step(s, r) == ResponseStep(s, r, r.op.slug, r.op.key, r.op.outcome, r.op.usable, r.op.retryAfter)
  {
  }

  lemma EndIs(s: State, r: Request)
    requires r.op.End?
    ensures Step(s, r) == (s, Refused)
      || Step(s, r) == (s.(owner := None, gate := s.gate.(permits := map[], waiters := [])), Empty)
  {
  }

  /** The few ways a request of a running run can change the gate. */
  lemma GateCases(s: State, r: Request)
    requires !r.op.Begin?
    ensures var (s', reply) := Step(s, r);
      || (&& s'.gate == s.gate && s'.topology == s.topology && reply != Granted && !reply.Recorded?
          && s'.responses == s.responses && s'.journal == s.journal)
      || (r.op.End? && Step(s, r) == (s.(owner := None, gate := s.gate.(permits := map[], waiters := [])), Empty))
      || (r.op.Permits? && Step(s, r) == PermitStep(s, r, r.op.slug, r.op.key, r.op.full))
      || (r.op.Response?
          && Step(s, r) == ResponseStep(s, r, r.op.slug, r.op.key, r.op.outcome, r.op.usable, r.op.retryAfter))
  {
    hide Step, PermitStep, ResponseStep;
    if r.op.Permits? { PermitIs(s, r); }
    else if r.op.Response? { ResponseIs(s, r); }
    else if r.op.End? { EndIs(s, r); }
    else { QuietStep(s, r); }
  }

  /** Within a run the pause, the halted nodes and every node's earliest next request only move forward. */
  ghost predicate Forward(s: State, s': State) {
    && s'.topology == s.topology
    && s.gate.until <= s'.gate.until
    && s.gate.halted <= s'.gate.halted
    && forall node :: Get(s.gate.nodeUntil, node, 0) <= Get(s'.gate.nodeUntil, node, 0)
  }

  lemma PermitForward(s: State, r: Request, slug: Slug, key: RequestKey, full: bool)
    ensures Forward(s, PermitStep(s, r, slug, key, full).0)
  {
    hide Enqueue, Dequeue;
  }

  lemma ResponseForward(s: State, r: Request, slug: Slug, key: RequestKey, outcome: Outcome, usable: Option<bool>,
                        retryAfter: RetryAfter)
    ensures Forward(s, ResponseStep(s, r, slug, key, outcome, usable, retryAfter).0)
  {
    hide Window, NodesOf, ReleaseNode;
  }

  lemma GateStep(s: State, r: Request)
    requires !r.op.Begin?
    ensures Forward(s, Step(s, r).0)
  {
    hide Step, PermitStep, ResponseStep;
    GateCases(s, r);
    if r.op.Permits? { PermitForward(s, r, r.op.slug, r.op.key, r.op.full); }
    if r.op.Response? { ResponseForward(s, r, r.op.slug, r.op.key, r.op.outcome, r.op.usable, r.op.retryAfter); }
  }

  lemma ScheduleGate(s: State, r: Request, accepted: set<Slug>)
    ensures var (s', reply) := Schedule(s, r, accepted);
      s'.gate == s.gate && s'.topology == s.topology && reply != Granted && !reply.Recorded?
      && s'.responses == s.responses && s'.journal == s.journal
  {
    hide PickPrimary, PickSecondary, PickNormal, CountUnresolved, NodeTaken, SpreadsFirst, Touch;
  }

  lemma BoardOpsGate(s: State, r: Request, key: ClaimKey)
    requires key in s.board.claims && (r.op.ReserveModes? || r.op.Append? || r.op.Ack? || r.op.Done?)
    ensures var (s', reply) := LeasedStep(s, r, key);
      s'.gate == s.gate && s'.topology == s.topology && reply != Granted && !reply.Recorded?
      && s'.responses == s.responses && s'.journal == s.journal
  {
    hide Reserved, Fresh, Known, Touch, StoreRounds, Commit, CreditQuota, AfterSpecial, LocalTargets;
  }

  lemma {:induction false} TopologyFixed(states: seq<State>, rs: seq<Request>, i: nat)
    requires Behavior(states, rs) && OneRun(rs) && i < |states|
    ensures states[i].topology == states[0].topology
    decreases i
  {
    if i > 0 {
      TopologyFixed(states, rs, i - 1);
      hide Step;
      GateStep(states[i - 1], rs[i - 1]);
    }
  }

  lemma {:induction false} NodeUntilRises(states: seq<State>, rs: seq<Request>, i: nat, j: nat, node: Node)
    requires Behavior(states, rs) && OneRun(rs) && i <= j < |states|
    ensures Get(states[i].gate.nodeUntil, node, 0) <= Get(states[j].gate.nodeUntil, node, 0)
    ensures states[i].gate.halted <= states[j].gate.halted
    decreases j
  {
    if i < j {
      NodeUntilRises(states, rs, i, j - 1, node);
      hide Step;
      GateStep(states[j - 1], rs[j - 1]);
    }
  }

  // ----- when a permit is granted -----

  /** The journal stands in the way of a request in full: its answer is known to be good, or it may still be under way. */
  ghost predicate Journalled(s: State, slug: Slug, key: RequestKey) {
    (slug, key) in s.journal
    && var entry := s.journal[(slug, key)];
       entry.response.None? || (entry.usable && 200 <= entry.response.value.status < 300)
  }

  /**
   A permit is granted as soon as nothing stands in its way, and only then: the run is in charge and not over, the worker
   has a lease, no breaker and no pause is in force, the journal allows the request, there is capacity, and the egress's
   earliest next request has come. The egress is then held for exactly `nodeMs`.
   */
  lemma PermitGrantedIff(s: State, r: Request, egress: Node)
    requires r.op.Permits? && GoesOutOn(s, r, egress)
    ensures Step(s, r).1 == Granted <==>
      && UnderLease(s, r) && Unhalted(s, r.node) && Hex64(r.op.key)
      && !(r.op.full && Journalled(s, r.op.slug, r.op.key))
      && r.now < s.deadline && s.gate.until <= r.now
      && |s.gate.permits| < s.topology.maxInFlight && Get(s.gate.nodeUntil, egress, 0) <= r.now
    ensures Step(s, r).1 == Granted ==>
      var s' := Step(s, r).0;
      && s'.gate.permits == s.gate.permits[r.op.key := Permit(r.op.slug, r.worker, egress, r.now)]
      && s'.gate.nodeUntil == s.gate.nodeUntil[egress := r.now + s.topology.nodeMs]
  {
    hide Enqueue, Dequeue, IsHash, Hex64;
    Hex64Is(r.op.key);
  }

  /** And what a request for a permit that passes the lease check is told otherwise. */
  lemma PermitAnswered(s: State, r: Request, egress: Node)
    requires r.op.Permits? && GoesOutOn(s, r, egress) && s.owner == Some(r.run) && Unhalted(s, r.node)
    ensures var reply := Step(s, r).1; var known := r.op.full && Journalled(s, r.op.slug, r.op.key);
      if !UnderLease(s, r) || !Hex64(r.op.key) then reply == Refused
      else if known then
        reply == if s.journal[(r.op.slug, r.op.key)].response.Some?
                 then Cached(s.journal[(r.op.slug, r.op.key)].response.value)
                 else Refused
      else if s.deadline <= r.now then reply == Stop
      else if r.now < s.gate.until then
        reply == if s.deadline <= s.gate.until then Stop else Wait(Min(30_000, s.gate.until - r.now))
      else if |s.gate.permits| >= s.topology.maxInFlight then reply == Wait(50)
      else if r.now < Get(s.gate.nodeUntil, egress, 0) then reply == Wait(Max(20, Get(s.gate.nodeUntil, egress, 0) - r.now))
      else reply == Granted
  {
    hide Enqueue, Dequeue, IsHash, Hex64;
    Hex64Is(r.op.key);
  }

  lemma GrantMoves(s: State, r: Request, node: Node)
    requires GrantsOn(s, r, node)
    ensures Get(s.gate.nodeUntil, node, 0) <= r.now
    ensures s.gate.until <= r.now
    ensures r.now + s.topology.nodeMs <= Get(Step(s, r).0.gate.nodeUntil, node, 0)
  {
    hide Step, Enqueue, Dequeue, Window, NodesOf, ReleaseNode;
    GateCases(s, r);
  }

  /** Until when a 429 that arrives at `now` holds its egress: ten seconds at least, a minute when the header says nothing. */
  function HeldUntil(header: RetryAfter, now: int): int {
    match header
    case Delay(ms) => now + Max(10_000, ms)
    case Date(at) => Max(now + 10_000, at)
    case Unparsable => now + 60_000
  }

  lemma HeldIs(header: RetryAfter, now: int)
    ensures now + BackoffMs(header, now) == HeldUntil(header, now)
  {
  }

  lemma ThrottledHolds(g: Gate, t: Topology, node: Node, worker: Worker, now: int, wait: int)
    ensures var held := Throttled(g, t, node, worker, now, wait).nodeUntil;
      node in held && held[node] == Max(Get(g.nodeUntil, node, 0), now + wait)
      && forall other | other != node :: Get(held, other, 0) == Get(g.nodeUntil, other, 0)
  {
    hide Window, NodesOf;
  }

  /** A recorded 429 holds its egress exactly that long, unless it was held longer already, and no other egress. */
  lemma BackoffIsExact(s: State, r: Request, node: Node)
    requires Records429(s, r, node)
    ensures !r.op.Begin?
    ensures Get(Step(s, r).0.gate.nodeUntil, node, 0)
         == Max(Get(s.gate.nodeUntil, node, 0), HeldUntil(r.op.retryAfter, r.now))
    ensures forall other | other != node ::
      Get(Step(s, r).0.gate.nodeUntil, other, 0) == Get(s.gate.nodeUntil, other, 0)
  {
    hide Step, Throttled, ReleaseNode, HeldUntil, BackoffMs;
    ResponseIs(s, r);
    HeldIs(r.op.retryAfter, r.now);
    ThrottledHolds(s.gate.(permits := s.gate.permits - {r.op.key}), s.topology, node, r.worker, r.now,
                   BackoffMs(r.op.retryAfter, r.now));
  }

  // ----- spacing -----

  /** The times at which permits were granted on an egress, in request order. */
  ghost function GrantTimes(states: seq<State>, rs: seq<Request>, node: Node, n: nat): seq<int>
    requires Behavior(states, rs) && n <= |rs|
    decreases n
  {
    if n == 0 then []
    else
      GrantTimes(states, rs, node, n - 1)
      + (if GrantsOn(states[n - 1], rs[n - 1], node) then [rs[n - 1].now] else [])
  }

  ghost predicate Spaced(times: seq<int>, gap: nat, until: int) {
    && (forall a | 0 <= a < |times| - 1 :: times[a] + gap <= times[a + 1])
    && (times != [] ==> times[|times| - 1] + gap <= until)
  }

  lemma {:induction false} GrantsSpaced(states: seq<State>, rs: seq<Request>, node: Node, n: nat)
    requires Behavior(states, rs) && OneRun(rs) && n <= |rs|
    ensures Spaced(GrantTimes(states, rs, node, n), states[0].topology.nodeMs, Get(states[n].gate.nodeUntil, node, 0))
    decreases n
  {
    hide Step, GrantsOn;
    if n > 0 {
      var s, r := states[n - 1], rs[n - 1];
      GrantsSpaced(states, rs, node, n - 1);
      TopologyFixed(states, rs, n - 1);
      assert s.topology == states[0].topology;
      GateStep(s, r);
      if GrantsOn(s, r, node) {
        GrantMoves(s, r, node);
        SpacedExtend(GrantTimes(states, rs, node, n - 1), s.topology.nodeMs, Get(s.gate.nodeUntil, node, 0), r.now,
                     Get(states[n].gate.nodeUntil, node, 0));
      }
    }
  }

  lemma SpacedExtend(times: seq<int>, gap: nat, until: int, now: int, until': int)
    requires Spaced(times, gap, until) && until <= now && now + gap <= until'
    ensures Spaced(times + [now], gap, until')
  {
  }

  lemma {:induction false} SpacedApart(times: seq<int>, gap: nat, until: int, a: nat, b: nat)
    requires Spaced(times, gap, until) && a <= b < |times|
    ensures times[a] + (b - a) * gap <= times[b]
    decreases b
  {
    if a < b {
      SpacedApart(times, gap, until, a, b - 1);
      assert times[b - 1] + gap <= times[b - 1 + 1];
      assert (b - a) * gap == (b - 1 - a) * gap + gap;
    }
  }

  /**
   The rate of one egress, from its single timestamp and even when the clock goes back: the k-th permit after another
   comes at least k times `nodeMs` later, so a window of length `span` holds at most `span / nodeMs + 1` permits.
   */
  lemma EgressRate(states: seq<State>, rs: seq<Request>, node: Node, a: nat, b: nat, span: nat)
    requires Behavior(states, rs) && OneRun(rs)
    requires a <= b < |GrantTimes(states, rs, node, |rs|)|
    ensures var times := GrantTimes(states, rs, node, |rs|); var nodeMs := states[0].topology.nodeMs;
      && times[a] + (b - a) * nodeMs <= times[b]
      && (times[b] <= times[a] + span ==> b - a + 1 <= span / nodeMs + 1)
  {
    hide Step, GrantTimes;
    var times, nodeMs := GrantTimes(states, rs, node, |rs|), states[0].topology.nodeMs;
    GrantsSpaced(states, rs, node, |rs|);
    SpacedApart(times, nodeMs, Get(states[|rs|].gate.nodeUntil, node, 0), a, b);
    if times[b] <= times[a] + span {
      assert (b - a) * nodeMs <= span;
      QuotientBound(b - a, nodeMs, span);
    }
  }

  lemma QuotientBound(k: nat, d: pos, n: nat)
    requires k * d <= n
    ensures k <= n / d
  {
    var q, m := n / d, n % d;
    assert n == q * d + m && (q + 1) * d == q * d + d;
    if k > q { MulMonotone(q + 1, k, d); }
  }

  /** After a 429 no permit is granted on its egress before that time. */
  lemma RetryAfterHonoured(states: seq<State>, rs: seq<Request>, node: Node, i: nat, j: nat)
    requires Behavior(states, rs) && OneRun(rs) && i < j < |rs|
    ensures Records429(states[i], rs[i], node) && GrantsOn(states[j], rs[j], node) ==>
      HeldUntil(rs[i].op.retryAfter, rs[i].now) <= rs[j].now
  {
    hide Step, HeldUntil;
    if Records429(states[i], rs[i], node) && GrantsOn(states[j], rs[j], node) {
      BackoffIsExact(states[i], rs[i], node);
      GrantMoves(states[j], rs[j], node);
      NodeUntilRises(states, rs, i + 1, j, node);
    }
  }

  // ----- the global pause -----

  lemma UntilStep(s: State, r: Request)
    ensures s.gate.until <= Step(s, r).0.gate.until
  {
    if r.op.Begin? {
      hide Filter, RunOrder;
    } else {
      hide Step;
      GateStep(s, r);
    }
  }

  lemma {:induction false} UntilRises(states: seq<State>, rs: seq<Request>, i: nat, j: nat)
    requires Behavior(states, rs) && i <= j < |states|
    ensures states[i].gate.until <= states[j].gate.until
    decreases j
  {
    hide Step;
    if i < j {
      UntilRises(states, rs, i, j - 1);
      UntilStep(states[j - 1], rs[j - 1]);
    }
  }

  lemma OnlyPermitsGrant(s: State, r: Request)
    requires Step(s, r).1 == Granted
    ensures r.op.Permits?
  {
    if r.op.Begin? {
      hide Filter, RunOrder;
    } else {
      GateCases(s, r);
    }
  }

  lemma ClaimBeforeUntil(s: State, r: Request, accepted: set<Slug>)
    requires ClaimStep(s, r, accepted).1.Lease?
    ensures s.gate.until <= r.now && s.gate.until < s.deadline && !Egress(s, r.node) && !s.overloaded
  {
    hide Schedule;
  }

  lemma NothingBeforeUntil(s: State, r: Request)
    requires Step(s, r).1 == Granted || (r.op.Claims? && Step(s, r).1.Lease?)
    ensures s.gate.until <= r.now
  {
    hide ClaimStep, BeginStep, LeasedStep, GrantsOn;
    if r.op.Claims? && Step(s, r).1.Lease? {
      ClaimBeforeUntil(s, r, r.op.accepted);
    } else {
      OnlyPermitsGrant(s, r);
      assert GrantsOn(s, r, EgressOf(s, r)) by { GrantsOnOf(s, r); }
      GrantMoves(s, r, EgressOf(s, r));
    }
  }

  lemma GrantsOnOf(s: State, r: Request)
    requires r.op.Permits? && Step(s, r).1 == Granted
    ensures GrantsOn(s, r, EgressOf(s, r))
  {
    hide Step;
  }

  /**
   The pause is permanent: across any number of runs, no lease and no permit is ever granted before a deadline that
   was set earlier.
   */
  lemma PauseHolds(states: seq<State>, rs: seq<Request>, i: nat, j: nat)
    requires Behavior(states, rs) && i <= j < |rs|
    requires Step(states[j], rs[j]).1 == Granted || (rs[j].op.Claims? && Step(states[j], rs[j]).1.Lease?)
    ensures states[i].gate.until <= rs[j].now
  {
    hide Step;
    NothingBeforeUntil(states[j], rs[j]);
    UntilRises(states, rs, i, j);
  }

  // ----- the pruned window against the whole history -----

  ghost predicate Any429(s: State, r: Request) {
    r.op.Response? && Step(s, r).1.Recorded? && Reports(r.op.outcome, 429)
  }

  /** The 429 recorded at `j` is still recent, by two minutes, at every later one before `n`. */
  ghost predicate Listed(states: seq<State>, rs: seq<Request>, j: nat, n: nat)
    requires Behavior(states, rs) && j < n <= |rs|
  {
    Any429(states[j], rs[j])
    && forall k {:trigger rs[k]} | j < k < n && Any429(states[k], rs[k]) :: rs[k].now - rs[j].now < 120_000
  }

  ghost function HitAt(states: seq<State>, rs: seq<Request>, j: nat): Hit
    requires Behavior(states, rs) && j < |rs|
  {
    Hit(EgressOf(states[j], rs[j]), rs[j].now)
  }

  ghost predicate ClockForward(rs: seq<Request>) {
    forall i, j | 0 <= i <= j < |rs| :: rs[i].now <= rs[j].now
  }

  lemma RateNodesStep(s: State, r: Request)
    requires !r.op.Begin?
    ensures Step(s, r).0.gate.rateNodes
         == if Any429(s, r) then Window(s.gate.rateNodes, r.now) + [Hit(EgressOf(s, r), r.now)] else s.gate.rateNodes
  {
    hide Step, PermitStep, ResponseStep, Window;
    GateCases(s, r);
    if r.op.Permits? { PermitHits(s, r); }
    if r.op.Response? { ResponseHits(s, r); }
  }

  lemma PermitHits(s: State, r: Request)
    requires r.op.Permits?
    ensures PermitStep(s, r, r.op.slug, r.op.key, r.op.full).0.gate.rateNodes == s.gate.rateNodes
  {
    hide Enqueue, Dequeue;
  }

  lemma ResponseHits(s: State, r: Request)
    requires r.op.Response?
    ensures var (s', reply) := ResponseStep(s, r, r.op.slug, r.op.key, r.op.outcome, r.op.usable, r.op.retryAfter);
      s'.gate.rateNodes
      == if reply.Recorded? && Reports(r.op.outcome, 429)
         then Window(s.gate.rateNodes, r.now) + [Hit(EgressOf(s, r), r.now)] else s.gate.rateNodes
  {
    hide Window, NodesOf, ReleaseNode, BackoffMs;
  }

  lemma ListedNext(states: seq<State>, rs: seq<Request>, j: nat, n: nat)
    requires Behavior(states, rs) && j < n < |rs|
    ensures Listed(states, rs, j, n + 1) <==>
      Listed(states, rs, j, n) && (Any429(states[n], rs[n]) ==> rs[n].now - rs[j].now < 120_000)
  {
    hide Step, Any429;
    if Any429(states[n], rs[n]) && Listed(states, rs, j, n + 1) { assert rs[n].now - rs[j].now < 120_000; }
  }

  /** The hits that one more request leaves on the list. */
  lemma RateNodesMembers(s: State, r: Request, hit: Hit)
    requires !r.op.Begin?
    ensures hit in Step(s, r).0.gate.rateNodes <==>
      || (hit in s.gate.rateNodes && (Any429(s, r) ==> r.now - hit.at < 120_000))
      || (Any429(s, r) && hit == Hit(EgressOf(s, r), r.now))
  {
    hide Step, Any429;
    RateNodesStep(s, r);
    FilterMembers(s.gate.rateNodes, Recent(r.now));
  }

  /**
   The pruned list against the whole history, for any clock: a 429 is on it exactly when it was recorded and was less
   than two minutes old at every 429 recorded since.
   */
  lemma {:induction false} WindowExact(states: seq<State>, rs: seq<Request>, n: nat, hit: Hit)
    requires Behavior(states, rs) && OneRun(rs) && states[0].gate.rateNodes == [] && n <= |rs|
    ensures hit in states[n].gate.rateNodes <==>
      exists j: nat :: j < n && Listed(states, rs, j, n) && HitAt(states, rs, j) == hit
    decreases n
  {
    hide Step, Any429, Listed;
    if n > 0 {
      var s, r := states[n - 1], rs[n - 1];
      WindowExact(states, rs, n - 1, hit);
      RateNodesMembers(s, r, hit);
      assert Listed(states, rs, n - 1, n) == Any429(s, r) by { NewestListed(states, rs, n - 1); }
      if j: nat :| j < n && Listed(states, rs, j, n) && HitAt(states, rs, j) == hit {
        if j < n - 1 { ListedNext(states, rs, j, n - 1); }
      }
      if hit in states[n].gate.rateNodes {
        if hit in s.gate.rateNodes && (Any429(s, r) ==> r.now - hit.at < 120_000) {
          var j: nat :| j < n - 1 && Listed(states, rs, j, n - 1) && HitAt(states, rs, j) == hit;
          ListedNext(states, rs, j, n - 1);
        } else {
          assert HitAt(states, rs, n - 1) == hit;
        }
      }
    }
  }

  lemma NewestListed(states: seq<State>, rs: seq<Request>, j: nat)
    requires Behavior(states, rs) && j < |rs|
    ensures Listed(states, rs, j, j + 1) == Any429(states[j], rs[j])
  {
    hide Step, Any429;
  }

  /** The nodes with a 429 that is recent at the one recorded at `i`, and at every one in between. */
  ghost function ThrottledRecently(states: seq<State>, rs: seq<Request>, i: nat): set<Node>
    requires Behavior(states, rs) && i < |rs|
  {
    set j: nat | j <= i && Listed(states, rs, j, i + 1) :: HitAt(states, rs, j).node
  }

  /** With a clock that does not go back, those are the nodes throttled in the last two minutes of the whole run. */
  lemma ForwardClock(states: seq<State>, rs: seq<Request>, i: nat, node: Node)
    requires Behavior(states, rs) && ClockForward(rs) && i < |rs| && Any429(states[i], rs[i])
    ensures node in ThrottledRecently(states, rs, i) <==>
      exists j: nat :: j <= i && Records429(states[j], rs[j], node) && rs[i].now - rs[j].now < 120_000
  {
    hide Step, Records429;
    forall j: nat | j <= i ensures Listed(states, rs, j, i + 1)
      <==> Any429(states[j], rs[j]) && rs[i].now - rs[j].now < 120_000
    {
      assert rs[i].now - rs[i].now < 120_000;
    }
    RecordsOne(states, rs, i, node);
  }

  lemma RecordsOne(states: seq<State>, rs: seq<Request>, i: nat, node: Node)
    requires Behavior(states, rs) && i < |rs|
    ensures forall j: nat | j <= i ::
      Records429(states[j], rs[j], node) <==> Any429(states[j], rs[j]) && HitAt(states, rs, j).node == node
  {
    hide Step;
  }

  /**
   A recorded 429 sets the pause, for any clock, exactly when the nodes throttled recently reach max(2, ceil(nodes / 2))
   or all containers share one egress; otherwise it leaves the pause alone.
   */
  lemma PauseIsExact(states: seq<State>, rs: seq<Request>, i: nat)
    requires Behavior(states, rs) && OneRun(rs) && states[0].gate.rateNodes == []
    requires i < |rs| && Any429(states[i], rs[i])
    ensures
      states[i + 1].gate.until
      == if || |ThrottledRecently(states, rs, i)| >= Max(2, (states[i].topology.nodes + 1) / 2)
            || states[i].topology.sharedEgress
         then Max(states[i].gate.until, HeldUntil(rs[i].op.retryAfter, rs[i].now)) else states[i].gate.until
  {
    hide Step, Any429, Listed, HeldUntil;
    PauseStep(states[i], rs[i]);
    var hits := states[i + 1].gate.rateNodes;
    forall node ensures node in NodesOf(hits) <==> node in ThrottledRecently(states, rs, i) {
      ListedNodes(states, rs, i, node);
    }
    assert NodesOf(hits) == ThrottledRecently(states, rs, i);
  }

  lemma ListedNodes(states: seq<State>, rs: seq<Request>, i: nat, node: Node)
    requires Behavior(states, rs) && OneRun(rs) && states[0].gate.rateNodes == [] && i < |rs|
    ensures node in NodesOf(states[i + 1].gate.rateNodes) <==> node in ThrottledRecently(states, rs, i)
  {
    hide Step, Any429, Listed;
    var hits := states[i + 1].gate.rateNodes;
    if node in NodesOf(hits) {
      var hit :| hit in hits && hit.node == node;
      WindowExact(states, rs, i + 1, hit);
    }
    if node in ThrottledRecently(states, rs, i) {
      var j: nat :| j <= i && Listed(states, rs, j, i + 1) && HitAt(states, rs, j).node == node;
      WindowExact(states, rs, i + 1, HitAt(states, rs, j));
    }
  }

  lemma PauseStep(s: State, r: Request)
    requires Any429(s, r)
    ensures !r.op.Begin? && r.op.Response? && Step(s, r).0.gate.until
      == if |NodesOf(Step(s, r).0.gate.rateNodes)| >= PauseThreshold(s.topology) || s.topology.sharedEgress
         then Max(s.gate.until, HeldUntil(r.op.retryAfter, r.now)) else s.gate.until
  {
    hide Step, ReleaseNode, Window, NodesOf;
    ResponseIs(s, r);
    HeldIs(r.op.retryAfter, r.now);
  }

  // ----- the circuit breaker -----

  /** The workers of an egress that have met a 429 in this run. */
  ghost function ThrottledWorkers(states: seq<State>, rs: seq<Request>, node: Node, n: nat): set<Worker>
    requires Behavior(states, rs) && n <= |rs|
    decreases n
  {
    if n == 0 then {}
    else
      ThrottledWorkers(states, rs, node, n - 1)
      + (if Records429(states[n - 1], rs[n - 1], node) then {rs[n - 1].worker} else {})
  }

  ghost predicate BreakerInv(nodeThrottle: map<Node, seq<Worker>>, halted: set<Node>, limit: nat, node: Node,
                             throttled: set<Worker>)
  {
    var noted := Get(nodeThrottle, node, []);
    && Distinct(noted)
    && (set w | w in noted) == throttled
    && (node in halted <==> |noted| >= limit)
  }

  lemma {:induction false} DistinctCardinality(s: seq<Worker>)
    requires Distinct(s)
    ensures |set w | w in s| == |s|
    decreases s
  {
    if s != [] {
      DistinctCardinality(s[1..]);
      assert (set w | w in s) == {s[0]} + (set w | w in s[1..]);
      assert forall j | 0 <= j < |s[1..]| :: s[1..][j] == s[j + 1];
    } else {
      assert (set w | w in s) == {};
    }
  }

  lemma ThrottledBreaker(g: Gate, t: Topology, node: Node, on: Node, worker: Worker, now: int, wait: int,
                         throttled: set<Worker>)
    requires BreakerInv(g.nodeThrottle, g.halted, t.throttleLimit, node, throttled)
    ensures var g' := Throttled(g, t, on, worker, now, wait);
      BreakerInv(g'.nodeThrottle, g'.halted, t.throttleLimit, node, throttled + (if on == node then {worker} else {}))
  {
    hide Window, NodesOf;
  }

  lemma BreakerStep(s: State, r: Request, node: Node, throttled: set<Worker>)
    requires !r.op.Begin? && BreakerInv(s.gate.nodeThrottle, s.gate.halted, s.topology.throttleLimit, node, throttled)
    ensures var s' := Step(s, r).0;
      BreakerInv(s'.gate.nodeThrottle, s'.gate.halted, s.topology.throttleLimit, node,
                 throttled + (if Records429(s, r, node) then {r.worker} else {}))
  {
    hide Step, PermitStep, ResponseStep, BreakerInv;
    GateCases(s, r);
    assert throttled + {} == throttled;
    if r.op.Permits? { PermitThrottles(s, r, r.op.slug, r.op.key, r.op.full); }
    if r.op.Response? {
      ResponseThrottles(s, r, r.op.slug, r.op.key, r.op.outcome, r.op.usable, r.op.retryAfter, node, throttled);
    }
  }

  lemma PermitThrottles(s: State, r: Request, slug: Slug, key: RequestKey, full: bool)
    ensures var s' := PermitStep(s, r, slug, key, full).0;
      s'.gate.nodeThrottle == s.gate.nodeThrottle && s'.gate.halted == s.gate.halted
  {
    hide Enqueue, Dequeue;
  }

  lemma ResponseThrottles(s: State, r: Request, slug: Slug, key: RequestKey, outcome: Outcome, usable: Option<bool>,
                          retryAfter: RetryAfter, node: Node, throttled: set<Worker>)
    requires BreakerInv(s.gate.nodeThrottle, s.gate.halted, s.topology.throttleLimit, node, throttled)
    ensures var (s', reply) := ResponseStep(s, r, slug, key, outcome, usable, retryAfter);
      BreakerInv(s'.gate.nodeThrottle, s'.gate.halted, s.topology.throttleLimit, node,
                 throttled
                 + (if reply.Recorded? && StatusOf(outcome) == 429 && EgressOf(s, r) == node then {r.worker} else {}))
  {
    hide Throttled, ReleaseNode, BackoffMs, BreakerInv;
    assert throttled + {} == throttled;
    ThrottledBreaker(s.gate.(permits := s.gate.permits - {key}), s.topology, node, EgressOf(s, r), r.worker, r.now,
                     BackoffMs(retryAfter, r.now), throttled);
  }

  lemma {:induction false} BreakerAt(states: seq<State>, rs: seq<Request>, node: Node, n: nat)
    requires Behavior(states, rs) && OneRun(rs) && n <= |rs|
    requires states[0].gate.nodeThrottle == map[] && states[0].gate.halted == {}
    ensures BreakerInv(states[n].gate.nodeThrottle, states[n].gate.halted, states[0].topology.throttleLimit, node,
                       ThrottledWorkers(states, rs, node, n))
    decreases n
  {
    hide Step, Records429;
    if n > 0 {
      BreakerAt(states, rs, node, n - 1);
      TopologyFixed(states, rs, n - 1);
      BreakerStep(states[n - 1], rs[n - 1], node, ThrottledWorkers(states, rs, node, n - 1));
    } else {
      assert (set w | w in Get(states[0].gate.nodeThrottle, node, [])) == {};
    }
  }

  /** A node is halted exactly when enough different workers on it have met a 429 since the run began. */
  lemma BreakerIsExact(states: seq<State>, rs: seq<Request>, node: Node, n: nat)
    requires Behavior(states, rs) && OneRun(rs) && n <= |rs|
    requires states[0].gate.nodeThrottle == map[] && states[0].gate.halted == {}
    ensures node in states[n].gate.halted
       <==> |ThrottledWorkers(states, rs, node, n)| >= states[0].topology.throttleLimit
  {
    hide Step, Records429;
    BreakerAt(states, rs, node, n);
    TopologyFixed(states, rs, n);
    DistinctCardinality(Get(states[n].gate.nodeThrottle, node, []));
  }

  /** The client names its own node in every request. */
  ghost predicate OwnNode(r: Request) {
    r.node == NodeOf(r.worker)
  }

  /** The node that the worker of a lease belongs to. */
  function HolderNode(c: Claim): Node {
    NodeOf(if c.worker.Some? then c.worker.value else "")
  }

  /** No worker of a halted node holds a running lease; if workers name their own nodes, the leases name them too. */
  ghost predicate Fenced(s: State, own: bool) {
    forall k | k in s.board.claims && s.board.claims[k].status == Running ::
      var c := s.board.claims[k];
      HolderNode(c) !in s.gate.halted && (own ==> c.node == Some(HolderNode(c)))
  }

  /** A worker of a halted node does not ask for a lease under the name of another node. */
  ghost predicate KeepsOut(s: State, r: Request) {
    r.op.Claims? && NodeOf(r.worker) in s.gate.halted ==> Egress(s, r.node)
  }

  lemma {:induction false} PassesFence(b: Board, slugs: seq<Slug>, modeGames: seq<Slug>, accepted: set<Slug>, now: int)
    ensures forall k | RunningAt(PickPrimary(b, slugs, accepted, now).0.claims, k) ::
      k in b.claims && b.claims[k] == PickPrimary(b, slugs, accepted, now).0.claims[k]
    ensures forall k | RunningAt(PickNormal(b, slugs, modeGames, accepted, now).0.claims, k) ::
      k in b.claims && b.claims[k] == PickNormal(b, slugs, modeGames, accepted, now).0.claims[k]
    decreases slugs
  {
    if slugs != [] {
      PassesFence(b, slugs[1..], modeGames, accepted, now);
      PassesFence(AcceptSpecial(b, slugs[0]), slugs[1..], modeGames, accepted, now);
      PassesFence(AcceptNormal(b, slugs[0]), slugs[1..], modeGames, accepted, now);
    }
  }

  lemma GrantFence(s: State, r: Request, key: ClaimKey, special: bool, shard: nat, own: bool)
    requires Fenced(s, own) && NodeOf(r.worker) !in s.gate.halted && (own ==> OwnNode(r))
    ensures Fenced(Grant(s, r, key, special, shard).0, own)
  {
    hide NodeTaken, SpreadsFirst, Touch, NodeOf, NextGame;
  }

  lemma ClaimFence(s: State, r: Request, accepted: set<Slug>, own: bool)
    requires Fenced(s, own) && r.op.Claims? && KeepsOut(s, r) && (own ==> OwnNode(r))
    ensures Fenced(ClaimStep(s, r, accepted).0, own)
  {
    hide PickPrimary, PickSecondary, PickNormal, CountUnresolved, Grant, Fenced, OwnNode;
    if NodeOf(r.worker) !in s.gate.halted {
      var (b1, primary) := PickPrimary(s.board, s.modeGames, accepted, r.now);
      PassesFence(s.board, s.modeGames, s.modeGames, accepted, r.now);
      FewerRun(s, b1, own);
      var s1 := s.(board := b1);
      if primary.Some? { GrantFence(s1, r, Primary(primary.value), true, 1, own); }
      var secondary := PickSecondary(b1, s.modeGames, r.node, r.now);
      if secondary.Some? { GrantFence(s1, r, Secondary(secondary.value), true, 2, own); }
      var (b2, normal) := PickNormal(b1, s.games, s.modeGames, accepted, r.now);
      PassesFence(b1, s.games, s.modeGames, accepted, r.now);
      FewerRun(s1, b2, own);
      if normal.Some? { GrantFence(s.(board := b2), r, Primary(normal.value), false, 0, own); }
    }
  }

  lemma FewerRun(s: State, b: Board, own: bool)
    requires Fenced(s, own)
    requires forall k | RunningAt(b.claims, k) :: k in s.board.claims && s.board.claims[k] == b.claims[k]
    ensures Fenced(s.(board := b), own)
  {
    assert forall k | k in b.claims && b.claims[k].status == Running :: RunningAt(b.claims, k);
  }

  lemma FenceStep(s: State, r: Request, own: bool)
    requires Fenced(s, own) && KeepsOut(s, r) && (own ==> OwnNode(r)) && (r.op.Done? ==> r.op.status != Running)
    requires !r.op.Begin?
    ensures Fenced(Step(s, r).0, own)
  {
    hide NodeOf, Schedule, ClaimStep, LeasedStep;
    var key := WorkerClaim(s.board.claims, r.worker, SlugOf(r.op));
    if r.op.Claims? {
      ClaimFence(s, r, r.op.accepted, own);
    } else if key.Some? {
      LeasedFence(s, r, key.value, own);
    }
  }

  lemma ReleaseFence(s: State, node: Node, gate: Gate, own: bool)
    requires Fenced(s, own) && gate.halted <= s.gate.halted + {node}
    ensures Fenced(s.(gate := gate, board := ReleaseNode(s.board, node)), own)
  {
    hide NodeOf, Drop, Evicted;
  }

  lemma ResponseFence(s: State, r: Request, slug: Slug, key: RequestKey, outcome: Outcome, usable: Option<bool>,
                      retryAfter: RetryAfter, own: bool)
    requires Fenced(s, own)
    ensures Fenced(ResponseStep(s, r, slug, key, outcome, usable, retryAfter).0, own)
  {
    hide Window, NodesOf, BackoffMs, NodeOf, ReleaseNode;
    var s' := ResponseStep(s, r, slug, key, outcome, usable, retryAfter).0;
    if s'.gate.halted <= s.gate.halted + {EgressOf(s, r)} {
      ReleaseFence(s, EgressOf(s, r), s'.gate, own);
    }
  }

  lemma DoneFence(s: State, r: Request, key: ClaimKey, status: Status, own: bool)
    requires Fenced(s, own) && status != Running && key in s.board.claims
    ensures Fenced(DoneStep(s, r, key, status).0, own)
  {
    hide NodeOf, AfterSpecial, SyncGame;
  }

  lemma OtherFence(s: State, r: Request, key: ClaimKey)
    requires key in s.board.claims && !r.op.Response? && !r.op.Done?
    ensures var s' := LeasedStep(s, r, key).0;
      s'.board.claims == s.board.claims && s'.gate.halted == s.gate.halted
  {
    hide Reserved, Fresh, Known, Touch, StoreRounds, Commit, CreditQuota, LocalTargets, ValidBatch, ValidReport, DoneStep,
      PermitStep, ResponseStep;
    if r.op.Permits? { PermitClaims(s, r, r.op.slug, r.op.key, r.op.full); }
  }

  lemma PermitClaims(s: State, r: Request, slug: Slug, key: RequestKey, full: bool)
    ensures var s' := PermitStep(s, r, slug, key, full).0;
      s'.board.claims == s.board.claims && s'.gate.halted == s.gate.halted
  {
    hide Enqueue, Dequeue;
  }

  lemma FenceMoves(s: State, s': State, own: bool)
    requires Fenced(s, own) && s'.board.claims == s.board.claims && s'.gate.halted == s.gate.halted
    ensures Fenced(s', own)
  {
  }

  lemma LeasedFence(s: State, r: Request, key: ClaimKey, own: bool)
    requires Fenced(s, own) && (r.op.Done? ==> r.op.status != Running) && key in s.board.claims
    ensures Fenced(LeasedStep(s, r, key).0, own)
  {
    hide Fenced, NodeOf, ResponseStep, PermitStep, ReserveStep, AppendStep, AckStep, DoneStep;
    if r.op.Response? {
      ResponseFence(s, r, r.op.slug, r.op.key, r.op.outcome, r.op.usable, r.op.retryAfter, own);
    } else if r.op.Done? {
      DoneFence(s, r, key, r.op.status, own);
    } else {
      OtherFence(s, r, key);
      FenceMoves(s, LeasedStep(s, r, key).0, own);
    }
  }

  lemma {:induction false} FencedAt(states: seq<State>, rs: seq<Request>, n: nat, own: bool)
    requires Behavior(states, rs) && OneRun(rs) && n <= |rs| && states[0].board.claims == map[]
    requires forall j {:trigger rs[j]} | 0 <= j < |rs| ::
      KeepsOut(states[j], rs[j]) && (own ==> OwnNode(rs[j])) && (rs[j].op.Done? ==> rs[j].op.status != Running)
    ensures Fenced(states[n], own)
    decreases n
  {
    if n > 0 {
      FencedAt(states, rs, n - 1, own);
      hide Step, OwnNode, Fenced, KeepsOut;
      FenceStep(states[n - 1], rs[n - 1], own);
    }
  }

  /**
   A halt lasts until the next run: every claim and permit request that names a halted node is turned away, and once the
   shared egress is halted, every one is.
   */
  lemma HaltedNodesAreRefused(states: seq<State>, rs: seq<Request>, i: nat, j: nat)
    requires Behavior(states, rs) && OneRun(rs) && i <= j < |rs| && (rs[j].op.Claims? || rs[j].op.Permits?)
    requires rs[j].node in states[i].gate.halted
      || (states[i].topology.sharedEgress && LOCAL_EGRESS in states[i].gate.halted)
    ensures Step(states[j], rs[j]) == (states[j], Halted) || Step(states[j], rs[j]) == (states[j], Refused)
  {
    TopologyFixed(states, rs, i);
    TopologyFixed(states, rs, j);
    NodeUntilRises(states, rs, i, j, rs[j].node);
    HaltedStep(states[j], rs[j]);
  }

  lemma HaltedStep(s: State, r: Request)
    requires (r.op.Claims? || r.op.Permits?) && Egress(s, r.node)
    ensures Step(s, r) == (s, Halted) || Step(s, r) == (s, Refused)
  {
  }

  /**
   No worker of a halted node holds a running lease, as long as such workers do not ask under another node's name. If all
   workers name their own nodes, no running lease names a halted node either.
   */
  lemma HaltedNodesHoldNoLease(states: seq<State>, rs: seq<Request>, i: nat, j: nat, node: Node, key: ClaimKey)
    requires Behavior(states, rs) && OneRun(rs) && i <= j <= |rs| && states[0].board.claims == map[]
    requires forall n {:trigger rs[n]} | 0 <= n < |rs| ::
      KeepsOut(states[n], rs[n]) && (rs[n].op.Done? ==> rs[n].op.status != Running)
    requires node in states[i].gate.halted
    ensures RunningAt(states[j].board.claims, key) ==> !HeldFrom(states[j].board.claims[key], node)
    ensures RunningAt(states[j].board.claims, key) && (forall n {:trigger rs[n]} | 0 <= n < |rs| :: OwnNode(rs[n])) ==>
      states[j].board.claims[key].node != Some(node)
  {
    hide Step, OwnNode, KeepsOut;
    NodeUntilRises(states, rs, i, j, node);
    FencedAt(states, rs, j, false);
    if forall n {:trigger rs[n]} | 0 <= n < |rs| :: OwnNode(rs[n]) { FencedAt(states, rs, j, true); }
  }

  // ----- permits in flight -----

  ghost predicate InFlightInv(s: State) {
    && |s.gate.permits| <= s.topology.maxInFlight
    && KeysDistinct(s.gate.waiters)
  }

  ghost predicate KeysDistinct(ws: seq<Waiter>) {
    forall i, j | 0 <= i < j < |ws| :: ws[i].key != ws[j].key
  }

  lemma {:induction false} LiveKeepsKeys(ws: seq<Waiter>, now: int)
    requires KeysDistinct(ws)
    ensures KeysDistinct(Live(ws, now))
    decreases ws
  {
    if ws != [] {
      LiveKeepsKeys(ws[1..], now);
      FilterMembers(ws[1..], (w: Waiter) => now - w.seen < WAITER_TTL_MS);
      assert forall w | w in ws[1..] :: w.key != ws[0].key;
      assert forall i | 0 <= i < |Live(ws[1..], now)| :: Live(ws[1..], now)[i] in ws[1..];
    }
  }

  lemma QueueKeepsKeys(ws: seq<Waiter>, key: RequestKey, node: Node, now: int)
    requires KeysDistinct(ws)
    ensures KeysDistinct(Enqueue(ws, key, node, now))
    ensures KeysDistinct(Dequeue(Enqueue(ws, key, node, now), key))
    ensures forall w | w in Dequeue(Enqueue(ws, key, node, now), key) :: w.key != key
  {
    hide KeysDistinct, Dequeue, Enqueue;
    EnqueueKeepsKeys(ws, key, node, now);
    DequeueKeepsKeys(Enqueue(ws, key, node, now), key);
  }

  lemma EnqueueKeepsKeys(ws: seq<Waiter>, key: RequestKey, node: Node, now: int)
    requires KeysDistinct(ws)
    ensures KeysDistinct(Enqueue(ws, key, node, now))
  {
    hide Live;
    LiveKeepsKeys(ws, now);
  }

  lemma DequeueKeepsKeys(ws: seq<Waiter>, key: RequestKey)
    requires KeysDistinct(ws)
    ensures KeysDistinct(Dequeue(ws, key)) && forall w | w in Dequeue(ws, key) :: w.key != key
  {
  }

  lemma InFlightBegin(s: State, r: Request)
    requires InFlightInv(s) && r.op.Begin?
    ensures InFlightInv(Step(s, r).0)
  {
    hide Filter, RunOrder, SlugsOf;
  }

  lemma PermitInFlight(s: State, r: Request, slug: Slug, key: RequestKey, full: bool)
    requires InFlightInv(s)
    ensures InFlightInv(PermitStep(s, r, slug, key, full).0)
  {
    hide Enqueue, Dequeue, KeysDistinct;
    QueueKeepsKeys(s.gate.waiters, key, EgressOf(s, r), r.now);
  }

  lemma ResponseInFlight(s: State, r: Request, slug: Slug, key: RequestKey, outcome: Outcome, usable: Option<bool>,
                         retryAfter: RetryAfter)
    requires InFlightInv(s)
    ensures InFlightInv(ResponseStep(s, r, slug, key, outcome, usable, retryAfter).0)
  {
    hide Window, NodesOf, ReleaseNode, KeysDistinct;
  }

  lemma InFlightStep(s: State, r: Request)
    requires InFlightInv(s)
    ensures InFlightInv(Step(s, r).0)
  {
    hide Step, PermitStep, ResponseStep;
    if r.op.Begin? {
      InFlightBegin(s, r);
    } else {
      GateCases(s, r);
      if r.op.Permits? { PermitInFlight(s, r, r.op.slug, r.op.key, r.op.full); }
      if r.op.Response? { ResponseInFlight(s, r, r.op.slug, r.op.key, r.op.outcome, r.op.usable, r.op.retryAfter); }
    }
  }

  /** In every reachable state at most `maxInFlight` permits are out, and no request waits twice. */
  lemma {:induction false} PermitsBounded(states: seq<State>, rs: seq<Request>, n: nat)
    requires Behavior(states, rs) && Initial(states[0]) && n < |states|
    ensures |states[n].gate.permits| <= states[n].topology.maxInFlight
    ensures KeysDistinct(states[n].gate.waiters)
    ensures InFlightInv(states[n])
    decreases n
  {
    hide Step;
    if n > 0 {
      PermitsBounded(states, rs, n - 1);
      InFlightStep(states[n - 1], rs[n - 1]);
    }
  }

  ghost function Count(states: seq<State>, rs: seq<Request>, p: (State, Request) -> bool, n: nat): nat
    requires Behavior(states, rs) && n <= |rs|
    decreases n
  {
    if n == 0 then 0
    else Count(states, rs, p, n - 1) + if p(states[n - 1], rs[n - 1]) then 1 else 0
  }

  ghost predicate Grants(s: State, r: Request) {
    Step(s, r).1 == Granted
  }

  ghost predicate Settling(s: State, r: Request) {
    Step(s, r).1.Recorded?
  }

  /** A permit granted for a request key that is still out: the old permit is lost. */
  ghost predicate Overwrites(s: State, r: Request) {
    Step(s, r).1 == Granted && r.op.Permits? && r.op.key in s.gate.permits
  }

  /** How one request changes the number of permits that are out. */
  ghost predicate Counted(s: State, r: Request) {
    var s' := Step(s, r).0;
    && s'.responses == s.responses + (if Settling(s, r) then 1 else 0)
    && |s'.gate.permits| + (if Settling(s, r) then 1 else 0) + (if Overwrites(s, r) then 1 else 0)
       == |s.gate.permits| + (if Grants(s, r) then 1 else 0)
  }

  /** A permit is settled only by the worker and the game it was granted to, and then it is gone. */
  lemma SettledByItsHolder(s: State, r: Request)
    requires r.op.Response? && Settling(s, r)
    ensures r.op.key in s.gate.permits && r.op.key !in Step(s, r).0.gate.permits
    ensures s.gate.permits[r.op.key].worker == r.worker && s.gate.permits[r.op.key].slug == r.op.slug
    ensures |Step(s, r).0.gate.permits| == |s.gate.permits| - 1 && Step(s, r).0.responses == s.responses + 1
  {
    hide Step, ReleaseNode, Window, NodesOf;
    ResponseIs(s, r);
    if r.op.key in s.gate.permits { RemoveOne(s.gate.permits, r.op.key); }
  }

  lemma RemoveOne(permits: map<RequestKey, Permit>, key: RequestKey)
    requires key in permits
    ensures |permits - {key}| == |permits| - 1
  {
    assert permits == (permits - {key})[key := permits[key]];
  }

  lemma GrantedToItsHolder(s: State, r: Request)
    requires r.op.Permits? && Grants(s, r)
    ensures var s' := Step(s, r).0;
      && r.op.key in s'.gate.permits && s'.gate.permits[r.op.key].worker == r.worker
      && s'.gate.permits[r.op.key].slug == r.op.slug && s'.responses == s.responses
      && |s'.gate.permits| == |s.gate.permits| + (if r.op.key in s.gate.permits then 0 else 1)
  {
    hide Step, Enqueue, Dequeue;
    PermitIs(s, r);
  }

  lemma PermitStepCounts(s: State, r: Request)
    requires !r.op.Begin? && !r.op.End?
    ensures Counted(s, r)
  {
    hide Step, Enqueue, Dequeue, Throttled, ReleaseNode;
    GateCases(s, r);
    if r.op.Permits? && Grants(s, r) { GrantedToItsHolder(s, r); }
    if r.op.Response? && Settling(s, r) { SettledByItsHolder(s, r); }
  }

  /**
   Permit conservation within a run: every granted permit has been answered once, is still out, or was replaced by a
   later grant of the same key; with fresh keys, grants equal responses plus outstanding permits.
   */
  lemma {:induction false} PermitConservation(states: seq<State>, rs: seq<Request>, n: nat)
    requires Behavior(states, rs) && n <= |rs| && states[0].gate.permits == map[] && states[0].responses == 0
    requires forall j {:trigger rs[j]} | 0 <= j < |rs| :: !rs[j].op.Begin? && !rs[j].op.End?
    ensures Count(states, rs, Grants, n)
         == states[n].responses + |states[n].gate.permits| + Count(states, rs, Overwrites, n)
    ensures states[n].responses == Count(states, rs, Settling, n)
    decreases n
  {
    hide Step, Grants, Settling, Overwrites;
    if n > 0 {
      PermitConservation(states, rs, n - 1);
      PermitStepCounts(states[n - 1], rs[n - 1]);
    }
  }

  // ----- one permit over a whole history -----

  ghost predicate GrantsKey(s: State, r: Request, key: RequestKey) {
    r.op.Permits? && r.op.key == key && Step(s, r).1 == Granted
  }

  ghost predicate AnswersKey(s: State, r: Request, key: RequestKey) {
    r.op.Response? && r.op.key == key && Step(s, r).1.Recorded?
  }

  /** A grant of a key that is not out; only such a grant puts one more permit out. */
  ghost function Opens(key: RequestKey): (State, Request) -> bool {
    (s: State, r: Request) => GrantsKey(s, r, key) && key !in s.gate.permits
  }

  ghost function Answers(key: RequestKey): (State, Request) -> bool {
    (s: State, r: Request) => AnswersKey(s, r, key)
  }

  /** The end of a run, or the takeover by the next one, takes back a permit that is out. */
  ghost function Revokes(key: RequestKey): (State, Request) -> bool {
    (s: State, r: Request) => (r.op.Begin? || r.op.End?) && key in s.gate.permits && key !in Step(s, r).0.gate.permits
  }

  /** The permit a key was last granted. */
  ghost function LastGrant(states: seq<State>, rs: seq<Request>, key: RequestKey, n: nat): Option<Permit>
    requires Behavior(states, rs) && n <= |rs|
    decreases n
  {
    if n == 0 then None
    else if GrantsKey(states[n - 1], rs[n - 1], key) then
      var r := rs[n - 1];
      Some(Permit(r.op.slug, r.worker, EgressOf(states[n - 1], r), r.now))
    else LastGrant(states, rs, key, n - 1)
  }

  /** What a request does to the permit of one key. */
  lemma KeyCases(s: State, r: Request, key: RequestKey)
    ensures var permits, permits' := s.gate.permits, Step(s, r).0.gate.permits;
      if GrantsKey(s, r, key) then
        key in permits' && permits'[key] == Permit(r.op.slug, r.worker, EgressOf(s, r), r.now)
      else if AnswersKey(s, r, key) then
        Settles(s, r, r.op.slug, key) && key !in permits'
      else if (r.op.Begin? || r.op.End?) && permits' != permits then
        permits' == map[]
      else
        (key in permits' <==> key in permits) && (key in permits ==> permits'[key] == permits[key])
  {
    hide Step, PermitStep, ResponseStep;
    if r.op.Begin? {
      BeginPermits(s, r);
    } else {
      GateCases(s, r);
      if r.op.Permits? { PermitKeys(s, r, r.op.slug, r.op.key, r.op.full); }
      if r.op.Response? {
        ResponseKeys(s, r, r.op.slug, r.op.key, r.op.outcome, r.op.usable, r.op.retryAfter);
      }
    }
  }

  lemma PermitKeys(s: State, r: Request, slug: Slug, asked: RequestKey, full: bool)
    ensures var (s', reply) := PermitStep(s, r, slug, asked, full);
      s'.gate.permits == if reply == Granted then s.gate.permits[asked := Permit(slug, r.worker, EgressOf(s, r), r.now)]
                         else s.gate.permits
  {
    hide Enqueue, Dequeue;
  }

  lemma ResponseKeys(s: State, r: Request, slug: Slug, answered: RequestKey, outcome: Outcome, usable: Option<bool>,
                     retryAfter: RetryAfter)
    ensures var (s', reply) := ResponseStep(s, r, slug, answered, outcome, usable, retryAfter);
      && (reply.Recorded? <==> Settles(s, r, slug, answered))
      && s'.gate.permits == if reply.Recorded? then s.gate.permits - {answered} else s.gate.permits
  {
    hide Throttled, ReleaseNode;
    ThrottledPermits(s.gate.(permits := s.gate.permits - {answered}), s.topology, EgressOf(s, r), r.worker, r.now,
                     BackoffMs(retryAfter, r.now));
  }

  lemma ThrottledPermits(g: Gate, t: Topology, node: Node, worker: Worker, now: int, wait: int)
    ensures var g' := Throttled(g, t, node, worker, now, wait);
      g'.permits == g.permits && node in g'.nodeThrottle
  {
    hide Window, NodesOf;
  }

  lemma BeginPermits(s: State, r: Request)
    requires r.op.Begin?
    ensures var (s', reply) := Step(s, r);
      && (s'.gate.permits == s.gate.permits || s'.gate.permits == map[])
      && s'.journal == s.journal && reply != Granted && !reply.Recorded?
  {
    hide ChosenGames;
  }

  /**
   In any history, run after run: a key's permit is out exactly once more than it was answered or taken back with its
   run, or not at all; so no grant is settled twice.
   */
  lemma {:induction false} KeyConservation(states: seq<State>, rs: seq<Request>, key: RequestKey, n: nat)
    requires Behavior(states, rs) && n <= |rs| && states[0].gate.permits == map[]
    ensures Count(states, rs, Opens(key), n)
         == Count(states, rs, Answers(key), n) + Count(states, rs, Revokes(key), n)
            + if key in states[n].gate.permits then 1 else 0
    decreases n
  {
    hide Step, GrantsKey, AnswersKey, Settles;
    if n > 0 {
      KeyConservation(states, rs, key, n - 1);
      KeyCases(states[n - 1], rs[n - 1], key);
      AnswerIsOut(states[n - 1], rs[n - 1], key);
    }
  }

  lemma AnswerIsOut(s: State, r: Request, key: RequestKey)
    ensures AnswersKey(s, r, key) ==> !GrantsKey(s, r, key) && Settles(s, r, r.op.slug, key) && key in s.gate.permits
    ensures r.op.Begin? || r.op.End? ==> !AnswersKey(s, r, key) && !GrantsKey(s, r, key)
  {
    hide Step;
    KeyCases(s, r, key);
  }

  lemma {:induction false} OutIsLastGrant(states: seq<State>, rs: seq<Request>, key: RequestKey, n: nat)
    requires Behavior(states, rs) && n <= |rs| && states[0].gate.permits == map[]
    ensures key in states[n].gate.permits ==> LastGrant(states, rs, key, n) == Some(states[n].gate.permits[key])
    decreases n
  {
    hide Step, GrantsKey, AnswersKey, Settles;
    if n > 0 {
      OutIsLastGrant(states, rs, key, n - 1);
      KeyCases(states[n - 1], rs[n - 1], key);
    }
  }

  /** Every recorded answer comes from the worker, and is for the game, that the key was last granted to. */
  lemma AnsweredByItsHolder(states: seq<State>, rs: seq<Request>, key: RequestKey, j: nat)
    requires Behavior(states, rs) && j < |rs| && states[0].gate.permits == map[]
    requires AnswersKey(states[j], rs[j], key)
    ensures var grant := LastGrant(states, rs, key, j);
      grant.Some? && grant.value.worker == rs[j].worker && grant.value.slug == rs[j].op.slug
  {
    hide Step, GrantsKey, AnswersKey;
    OutIsLastGrant(states, rs, key, j);
    AnswerIsOut(states[j], rs[j], key);
  }

  // ----- permits that are never settled -----

  /** An answer from the holder of a permit is recorded exactly when the holder still has a lease on the game. */
  lemma AnswerRecordedIff(s: State, r: Request)
    requires r.op.Response? && Settles(s, r, r.op.slug, r.op.key)
    ensures Step(s, r).1.Recorded? <==> UnderLease(s, r) && IsHash(r.op.key)
    ensures !Step(s, r).1.Recorded? ==> Step(s, r) == (s, Refused)
  {
    hide Throttled, ReleaseNode;
  }

  ghost predicate LeasedTo(s: State, r: Request, worker: Worker, slug: Slug) {
    r.op.Claims? && r.worker == worker && Step(s, r).1.Lease? && Step(s, r).1.slug == slug
  }

  ghost predicate Marks(before: map<ClaimKey, Claim>, after: map<ClaimKey, Claim>, key: ClaimKey) {
    key in after ==> after[key] == ACCEPTED_CLAIM || (key in before && after[key] == before[key])
  }

  /** The passes of a claim change an entry only to mark its game as accepted. */
  lemma {:induction false} PassesMark(b: Board, slugs: seq<Slug>, modeGames: seq<Slug>, accepted: set<Slug>, now: int,
                                      key: ClaimKey)
    ensures Marks(b.claims, PickPrimary(b, slugs, accepted, now).0.claims, key)
    ensures Marks(b.claims, PickNormal(b, slugs, modeGames, accepted, now).0.claims, key)
    decreases slugs
  {
    if slugs != [] {
      PassesMark(b, slugs[1..], modeGames, accepted, now, key);
      PassesMark(AcceptSpecial(b, slugs[0]), slugs[1..], modeGames, accepted, now, key);
      PassesMark(AcceptNormal(b, slugs[0]), slugs[1..], modeGames, accepted, now, key);
    }
  }

  /** A claim leaves an entry alone, marks it as accepted, or grants it to the worker that asked. */
  ghost predicate Hands(before: map<ClaimKey, Claim>, after: map<ClaimKey, Claim>, reply: Reply, worker: Worker,
                        key: ClaimKey)
  {
    Marks(before, after, key)
    || (key in after && reply.Lease? && reply.slug == key.slug && after[key].worker == Some(worker))
  }

  lemma ClaimMarks(s: State, r: Request, accepted: set<Slug>, key: ClaimKey)
    ensures var (s', reply) := ClaimStep(s, r, accepted);
      Hands(s.board.claims, s'.board.claims, reply, r.worker, key)
  {
    hide Schedule;
    ScheduleMarks(s, r, accepted, key);
  }

  lemma ScheduleMarks(s: State, r: Request, accepted: set<Slug>, key: ClaimKey)
    ensures var (s', reply) := Schedule(s, r, accepted);
      Hands(s.board.claims, s'.board.claims, reply, r.worker, key)
  {
    hide RunningKeys, NormalRunning, PickPrimary, PickSecondary, PickNormal, CountUnresolved, Grant;
    PassesMark(s.board, s.modeGames, s.modeGames, accepted, r.now, key);
    var (b, primary) := PickPrimary(s.board, s.modeGames, accepted, r.now);
    if primary.Some? {
      GrantMarks(s.(board := b), r, Primary(primary.value), true, 1);
    } else {
      var secondary := if s.topology.maxShards < 2 then None else PickSecondary(b, s.modeGames, r.node, r.now);
      if secondary.Some? {
        GrantMarks(s.(board := b), r, Secondary(secondary.value), true, 2);
      } else {
        PassesMark(b, s.games, s.modeGames, accepted, r.now, key);
        var (b', normal) := PickNormal(b, s.games, s.modeGames, accepted, r.now);
        if normal.Some? { GrantMarks(s.(board := b'), r, Primary(normal.value), false, 0); }
      }
    }
  }

  lemma GrantMarks(s: State, r: Request, key: ClaimKey, special: bool, shard: nat)
    ensures var (s', reply) := Grant(s, r, key, special, shard);
      if reply.Lease? then
        && reply.slug == key.slug && reply.shardIndex == shard
        && s'.board.claims == s.board.claims[key := NewClaim(r, special, shard)]
      else s'.board.claims == s.board.claims
  {
    hide NodeTaken, SpreadsFirst, Touch, NextGame;
  }

  /** Without a lease on a game, only a new lease gives a worker one. */
  lemma UnleasedStep(s: State, r: Request, worker: Worker, slug: Slug)
    requires WorkerClaim(s.board.claims, worker, slug).None? && worker != ""
    requires !r.op.Begin? && !LeasedTo(s, r, worker, slug)
    ensures WorkerClaim(Step(s, r).0.board.claims, worker, slug).None?
  {
    hide ClaimStep, LeasedStep;
    var held := WorkerClaim(s.board.claims, r.worker, SlugOf(r.op));
    if r.op.Claims? {
      ClaimMarks(s, r, r.op.accepted, Primary(slug));
      ClaimMarks(s, r, r.op.accepted, Secondary(slug));
    } else if held.Some? {
      LeasedWorkers(s, r, held.value, Primary(slug), worker);
      LeasedWorkers(s, r, held.value, Secondary(slug), worker);
    }
  }

  /** An operation under a lease makes no worker the holder of a lease. */
  lemma LeasedWorkers(s: State, r: Request, held: ClaimKey, key: ClaimKey, worker: Worker)
    requires held in s.board.claims && worker != ""
    ensures var after := LeasedStep(s, r, held).0.board.claims;
      key in after && after[key].worker == Some(worker) ==>
        key in s.board.claims && s.board.claims[key].worker == Some(worker)
  {
    hide AppendStep, ReserveStep, PermitStep, AckStep, AfterSpecial, SyncGame, Throttled, Drop, Evicted;
    if !r.op.Response? && !r.op.Done? { OtherFence(s, r, held); }
  }

  /**
   A permit whose holder has lost its lease on the game is never settled: it stays in the table, and every answer to it is
   refused, until the run ends, the key is granted again, or its holder is leased the game again.
   */
  lemma {:induction false} LostPermitsStay(states: seq<State>, rs: seq<Request>, key: RequestKey, i: nat, j: nat)
    requires Behavior(states, rs) && i <= j <= |rs| && key in states[i].gate.permits
    requires var p := states[i].gate.permits[key];
      && p.worker != "" && WorkerClaim(states[i].board.claims, p.worker, p.slug).None?
      && forall k {:trigger rs[k]} | i <= k < |rs| && k < j ::
           !rs[k].op.Begin? && !rs[k].op.End? && !GrantsKey(states[k], rs[k], key)
           && !LeasedTo(states[k], rs[k], p.worker, p.slug)
    ensures var p := states[i].gate.permits[key];
      && key in states[j].gate.permits && states[j].gate.permits[key] == p
      && WorkerClaim(states[j].board.claims, p.worker, p.slug).None?
      && forall k {:trigger rs[k]} | i <= k < |rs| && k < j :: !AnswersKey(states[k], rs[k], key)
    decreases j
  {
    hide Step, GrantsKey, LeasedTo;
    if i < j {
      LostPermitsStay(states, rs, key, i, j - 1);
      var s, r, p := states[j - 1], rs[j - 1], states[i].gate.permits[key];
      KeyCases(s, r, key);
      UnleasedStep(s, r, p.worker, p.slug);
      if AnswersKey(s, r, key) { AnswerRecordedIff(s, r); }
    }
  }

  /** A recorded 429 with which a node reaches the limit of the breaker. */
  ghost predicate Trips(s: State, r: Request, node: Node) {
    Records429(s, r, node) && |Get(Step(s, r).0.gate.nodeThrottle, node, [])| >= s.topology.throttleLimit
  }

  /**
   What a recorded answer does, for every status: the permit is settled, an answer in full is written to the journal with
   the judgement sent along or else that of its status, and nothing else changes unless it is a 429. The worker is told when
   the run and its egress can go on, and whether they are halted.
   */
  lemma AnswerTaken(s: State, r: Request, egress: Node, status: int)
    requires r.op.Response? && Step(s, r).1.Recorded? && GoesOutOn(s, r, egress) && Reports(r.op.outcome, status)
    ensures var (s', reply) := Step(s, r);
      && s'.responses == s.responses + 1 && s'.gate.permits == s.gate.permits - {r.op.key} && s'.disk == s.disk
      && reply == Recorded(s'.gate.until, Get(s'.gate.nodeUntil, egress, 0), egress in s'.gate.halted || s.overloaded)
      && s'.journal == (match r.op.outcome
                        case Compact(_) => s.journal
                        case Full(response) =>
                          var usable := if r.op.usable.Some? then r.op.usable.value else 200 <= status < 300;
                          s.journal[(r.op.slug, r.op.key) := Entry(response, usable)])
      && (status != 429 ==> s'.gate == s.gate.(permits := s.gate.permits - {r.op.key}))
      && (!Trips(s, r, egress) ==> s'.board == s.board)
  {
    hide ReleaseNode, Window, NodesOf, BackoffMs;
    ResponseIs(s, r);
  }

  lemma TripReleases(s: State, r: Request, node: Node)
    requires Trips(s, r, node)
    ensures Step(s, r).0.board == ReleaseNode(s.board, node) && node in Step(s, r).0.gate.halted
  {
    hide Step, ReleaseNode, BackoffMs;
    ResponseIs(s, r);
    ThrottledHalts(s.gate.(permits := s.gate.permits - {r.op.key}), s.topology, node, r.worker, r.now,
                   BackoffMs(r.op.retryAfter, r.now));
    hide Throttled;
  }

  /**
   A 429 that trips the shared egress changes no lease and no reservation, unless some worker with a running lease belongs
   to a node that bears the egress's name.
   */
  lemma SharedHaltReleasesNothingIff(s: State, r: Request)
    requires s.topology.sharedEgress && Trips(s, r, LOCAL_EGRESS)
    ensures Step(s, r).0.board == s.board <==> !exists k | k in s.board.claims :: HeldFrom(s.board.claims[k], LOCAL_EGRESS)
  {
    hide Step, Trips;
    TripReleases(s, r, LOCAL_EGRESS);
    ReleasesNothingIff(s.board, LOCAL_EGRESS);
  }

  lemma ReleasesNothingIff(b: Board, node: Node)
    ensures ReleaseNode(b, node) == b <==> !exists k | k in b.claims :: HeldFrom(b.claims[k], node)
  {
    hide NodeOf;
    var b' := ReleaseNode(b, node);
    if forall k | k in b.claims :: !HeldFrom(b.claims[k], node) {
      assert b'.claims == b.claims;
      forall slug | slug in b.quotas ensures b'.quotas[slug] == b.quotas[slug] {
        assert Evicted(b.claims, Primary(slug), node) + Evicted(b.claims, Secondary(slug), node) == {};
        if b.quotas[slug].frozen.Some? {
          assert b.quotas[slug].frozen.value.reservations - {} == b.quotas[slug].frozen.value.reservations;
        }
      }
      assert b'.quotas == b.quotas;
    }
  }

  lemma ThrottledHalts(g: Gate, t: Topology, node: Node, worker: Worker, now: int, wait: int)
    ensures var g' := Throttled(g, t, node, worker, now, wait);
      node in g'.nodeThrottle && (|g'.nodeThrottle[node]| >= t.throttleLimit ==> node in g'.halted)
  {
    hide Window, NodesOf;
  }

  /** When a node is handed back, its workers keep just the leases that they had given back themselves before. */
  lemma ReleasedHolderIff(b: Board, node: Node, worker: Worker, slug: Slug)
    requires worker != ""
    ensures WorkerClaim(ReleaseNode(b, node).claims, worker, slug).Some?
       <==> exists k | k in b.claims :: k.slug == slug && b.claims[k].worker == Some(worker)
              && !(b.claims[k].status == Running && NodeOf(worker) == node)
  {
    hide NodeOf, Evicted, Drop;
    var after := ReleaseNode(b, node).claims;
    forall k | k in b.claims ensures after[k].worker == Some(worker)
      <==> b.claims[k].worker == Some(worker) && !(b.claims[k].status == Running && NodeOf(worker) == node) {
    }
    assert forall k :: k in b.claims && k.slug == slug ==> k == Primary(slug) || k == Secondary(slug);
  }

  ghost function HolderName(c: Claim): Worker {
    if c.worker.Some? then c.worker.value else ""
  }

  ghost predicate Numeral(s: string) {
    s != "" && forall c | c in s :: '0' <= c <= '9'
  }

  /** A worker is a numbered thread of a numbered node. */
  ghost predicate ThreadOf(worker: Worker, node: Node, thread: string) {
    Numeral(node) && Numeral(thread) && worker == node + "." + thread
  }

  /** A worker whose name is not of that form is a node by itself. */
  ghost predicate BelongsTo(worker: Worker, node: Node) {
    || (exists thread :: ThreadOf(worker, node, thread))
    || (worker == node && !exists n, thread :: ThreadOf(worker, n, thread))
  }

  lemma BelongsIff(worker: Worker, node: Node)
    ensures NodeOf(worker) == node <==> BelongsTo(worker, node)
  {
    var dot := IndexOf(worker, '.');
    forall n, thread | ThreadOf(worker, n, thread) ensures dot == |n| && NodeOf(worker) == n {
      NodeOfThread(worker, n, thread);
    }
    if dot < |worker| && IsDigits(worker[..dot]) && IsDigits(worker[dot + 1..]) {
      assert worker == worker[..dot] + "." + worker[dot + 1..];
      assert ThreadOf(worker, worker[..dot], worker[dot + 1..]);
    }
  }

  lemma NodeOfThread(worker: Worker, node: Node, thread: string)
    requires ThreadOf(worker, node, thread)
    ensures IndexOf(worker, '.') == |node| && NodeOf(worker) == node
  {
    var dot := IndexOf(worker, '.');
    assert worker[|node|] == '.' && dot <= |worker| && (dot < |worker| ==> worker[dot] == '.');
    assert forall i | 0 <= i < |node| :: worker[i] == node[i];
    assert '.' !in node;
    forall i | 0 <= i < |node| ensures worker[i] != '.' { assert node[i] in node; }
    assert forall i | 0 <= i < dot :: worker[i] == worker[..dot][i] && worker[..dot][i] in worker[..dot];
    assert dot == |node|;
    assert worker[..dot] == node && worker[dot + 1..] == thread;
    assert forall i | 0 <= i < |thread| :: thread[i] in thread;
    assert forall i | 0 <= i < |node| :: node[i] in node;
  }

  /**
   What the breaker does, for every worker and game: exactly the running leases of the node's workers are given up, they
   can be claimed again at once, and their workers' reservations on those games are dropped; everything else stays.
   */
  lemma TripIsExact(s: State, r: Request, node: Node, key: ClaimKey, worker: Worker, now: int)
    requires Trips(s, r, node) && key in s.board.claims && worker != ""
    ensures var b, b' := s.board, Step(s, r).0.board;
      && (WorkerClaim(b'.claims, worker, key.slug).Some?
          <==> exists k | k in b.claims :: k.slug == key.slug && b.claims[k].worker == Some(worker)
                 && !(b.claims[k].status == Running && BelongsTo(worker, node)))
      && b'.claims.Keys == b.claims.Keys
      && (if b.claims[key].status == Running && BelongsTo(HolderName(b.claims[key]), node) then
            Reclaimable(b'.claims[key], now)
          else b'.claims[key] == b.claims[key])
      && (key.slug in b.quotas && b.quotas[key.slug].frozen.Some? ==>
            && key.slug in b'.quotas && b'.quotas[key.slug].frozen.Some?
            && (worker in b'.quotas[key.slug].frozen.value.reservations
                <==> && worker in b.quotas[key.slug].frozen.value.reservations
                     && !(exists k | k in b.claims && k.slug == key.slug ::
                            b.claims[k].status == Running && b.claims[k].worker == Some(worker) && BelongsTo(worker, node))))
  {
    hide Step, Trips, NodeOf, BelongsTo;
    BelongsIff(worker, node);
    BelongsIff(HolderName(s.board.claims[key]), node);
    TripReleases(s, r, node);
    ReleasedHolderIff(s.board, node, worker, key.slug);
    DroppedIff(s.board, node, worker, key.slug);
  }

  lemma DroppedIff(b: Board, node: Node, worker: Worker, slug: Slug)
    requires worker != ""
    ensures worker in Evicted(b.claims, Primary(slug), node) + Evicted(b.claims, Secondary(slug), node)
       <==> exists k | k in b.claims && k.slug == slug ::
              b.claims[k].status == Running && b.claims[k].worker == Some(worker) && NodeOf(worker) == node
  {
    hide NodeOf;
    if worker in Evicted(b.claims, Primary(slug), node) {
      assert b.claims[Primary(slug)].worker == Some(worker);
    } else if worker in Evicted(b.claims, Secondary(slug), node) {
      assert b.claims[Secondary(slug)].worker == Some(worker);
    }
    assert forall k :: k in b.claims && k.slug == slug ==> k == Primary(slug) || k == Secondary(slug);
  }

  lemma {:induction false} HaltedStays(states: seq<State>, rs: seq<Request>, node: Node, i: nat, j: nat)
    requires Behavior(states, rs) && i <= j <= |rs| && node in states[i].gate.halted
    requires forall k {:trigger rs[k]} | i <= k < |rs| && k < j :: !rs[k].op.Begin?
    ensures node in states[j].gate.halted
    decreases j
  {
    if i < j {
      HaltedStays(states, rs, node, i, j - 1);
      hide Step;
      GateStep(states[j - 1], rs[j - 1]);
    }
  }

  lemma HaltedUnleased(s: State, r: Request, worker: Worker, slug: Slug)
    requires r.node in s.gate.halted
    ensures !LeasedTo(s, r, worker, slug)
  {
  }

  /**
   When the breaker trips, the permits that are out to the node's workers are lost: unless the holder had given its lease
   back itself, the permit stays in the table and every answer to it is refused until the run ends or the key is granted
   again.
   */
  lemma HaltLosesPermits(states: seq<State>, rs: seq<Request>, key: RequestKey, i: nat, j: nat)
    requires Behavior(states, rs) && i < j <= |rs| && key in states[i].gate.permits && rs[i].op.Response?
    requires var p := states[i].gate.permits[key];
      && Trips(states[i], rs[i], NodeOf(p.worker)) && rs[i].op.key != key && p.worker != ""
      && !(exists k | k in states[i].board.claims ::
             k.slug == p.slug && states[i].board.claims[k].worker == Some(p.worker)
             && states[i].board.claims[k].status != Running)
      && forall k {:trigger rs[k]} | i < k < |rs| && k < j ::
           !rs[k].op.Begin? && !rs[k].op.End? && !GrantsKey(states[k], rs[k], key)
           && (rs[k].worker == p.worker ==> OwnNode(rs[k]))
    ensures var p := states[i].gate.permits[key];
      && key in states[j].gate.permits && states[j].gate.permits[key] == p
      && forall k {:trigger rs[k]} | i < k < |rs| && k < j :: !AnswersKey(states[k], rs[k], key)
  {
    hide Step, GrantsKey, LeasedTo, ReleaseNode, Trips, NodeOf;
    var p := states[i].gate.permits[key];
    KeyCases(states[i], rs[i], key);
    GrantIsPermit(states[i], rs[i], key);
    TripReleases(states[i], rs[i], NodeOf(p.worker));
    ReleasedHolderIff(states[i].board, NodeOf(p.worker), p.worker, p.slug);
    forall k {:trigger rs[k]} | i < k < |rs| && k < j ensures !LeasedTo(states[k], rs[k], p.worker, p.slug) {
      HaltedStays(states, rs, NodeOf(p.worker), i + 1, k);
      if rs[k].worker == p.worker {
        HaltedUnleased(states[k], rs[k], p.worker, p.slug);
      } else {
        NotLeased(states[k], rs[k], p.worker, p.slug);
      }
    }
    LostPermitsStay(states, rs, key, i + 1, j);
  }

  // ----- a permit that is lost -----

  const TRIP_KEY: RequestKey := seq(64, _ => '0')
  const LOST_KEY: RequestKey := seq(64, _ => '1')

  const TRIP_STATE := State(
    true, Some("run"), 600_000, Topology(2, 1, 1, 9, 4, 2, false, false, 0), ["a", "b"], ["a", "b"], None, 0, false,
    Board(map[Primary("a") := Claim(Running, Some("1.1"), Some("1"), true, 1, 0, 0, 0),
              Primary("b") := Claim(Running, Some("1.2"), Some("1"), true, 1, 0, 0, 0)], map[]),
    Gate(0, map[TRIP_KEY := Permit("a", "1.1", "1", 0), LOST_KEY := Permit("b", "1.2", "1", 0)],
         [], map[], map[], {}, []),
    Disk(map[], map[], map[], map[], map[], map[]), map[], 0)

  const TRIP := Request("run", 1, "1.1", "1", Response("a", TRIP_KEY, Compact(429), None, Unparsable))
  const LATE_ANSWER := Request("run", 2, "1.2", "1", Response("b", LOST_KEY, Compact(200), None, Unparsable))

  lemma TripNode()
    ensures NodeOf("1.1") == "1" && NodeOf("1.2") == "1" && IsHash(TRIP_KEY) && TRIP_KEY != LOST_KEY
  {
    assert TRIP_KEY[0] != LOST_KEY[0];
    assert "1.1"[1..] == ".1" && "1.2"[1..] == ".2";
    assert IndexOf(".1", '.') == 0 && IndexOf(".2", '.') == 0;
    assert IndexOf("1.1", '.') == 1 && IndexOf("1.2", '.') == 1;
    assert "1.1"[..1] == "1" && "1.1"[2..] == "1" && "1.2"[..1] == "1" && "1.2"[2..] == "2";
  }

  lemma TripTrips()
    ensures Trips(TRIP_STATE, TRIP, "1")
  {
    hide NodeOf, ReleaseNode, NodesOf, Window, IsHash;
    TripNode();
  }

  /** Two permits are out on a node when its first 429 trips the breaker: the answer to the other one is refused for good. */
  lemma HaltLosesAPermit()
    ensures Trips(TRIP_STATE, TRIP, "1")
    ensures var s' := Step(TRIP_STATE, TRIP).0;
      LOST_KEY in s'.gate.permits && Settles(s', LATE_ANSWER, "b", LOST_KEY) && Step(s', LATE_ANSWER) == (s', Refused)
  {
    hide Step, NodeOf, Trips;
    TripNode();
    TripTrips();
    var s' := Step(TRIP_STATE, TRIP).0;
    var states, rs := [TRIP_STATE, s', Step(s', LATE_ANSWER).0], [TRIP, LATE_ANSWER];
    HaltLosesPermits(states, rs, LOST_KEY, 0, 1);
    HaltLosesPermits(states, rs, LOST_KEY, 0, 2);
    assert rs[1] == LATE_ANSWER && !AnswersKey(states[1], rs[1], LOST_KEY);
    AnswerRecordedIff(s', LATE_ANSWER);
  }

  lemma NotLeased(s: State, r: Request, worker: Worker, slug: Slug)
    requires r.worker != worker
    ensures !LeasedTo(s, r, worker, slug)
  {
    hide Step;
  }

  lemma GrantIsPermit(s: State, r: Request, key: RequestKey)
    ensures r.op.Response? ==> !GrantsKey(s, r, key)
    ensures AnswersKey(s, r, key) ==> r.op.key == key
  {
    hide Step;
  }

  lemma LeaseTaken(s: State, r: Request, worker: Worker, slug: Slug)
    requires LeasedTo(s, r, r.worker, slug) && r.worker != worker && worker != ""
    requires var shard := if Step(s, r).1.shardIndex == 2 then Primary(slug) else Secondary(slug);
      !(shard in s.board.claims && s.board.claims[shard].worker == Some(worker))
    ensures WorkerClaim(Step(s, r).0.board.claims, worker, slug).None?
  {
    hide ClaimStep;
    ClaimMarks(s, r, r.op.accepted, Primary(slug));
    ClaimMarks(s, r, r.op.accepted, Secondary(slug));
    LeaseIsGranted(s, r, r.op.accepted);
  }

  /**
   Without any breaker: when a shard is leased to another worker, the permits that the worker before has out on the game
   are lost, unless it has the other shard too. They stay in the table and every answer to them is refused, until the run
   ends, the key is granted again or that worker is leased the game again.
   */
  lemma ReleaseLosesPermits(states: seq<State>, rs: seq<Request>, key: RequestKey, i: nat, j: nat)
    requires Behavior(states, rs) && i < j <= |rs| && key in states[i].gate.permits
    requires var p := states[i].gate.permits[key];
      && LeasedTo(states[i], rs[i], rs[i].worker, p.slug) && rs[i].worker != p.worker && p.worker != ""
      && var shard := if Step(states[i], rs[i]).1.shardIndex == 2 then Primary(p.slug) else Secondary(p.slug);
         && !(shard in states[i].board.claims && states[i].board.claims[shard].worker == Some(p.worker))
         && forall k {:trigger rs[k]} | i < k < |rs| && k < j ::
              !rs[k].op.Begin? && !rs[k].op.End? && !GrantsKey(states[k], rs[k], key)
              && !LeasedTo(states[k], rs[k], p.worker, p.slug)
    ensures var p := states[i].gate.permits[key];
      && key in states[j].gate.permits && states[j].gate.permits[key] == p
      && forall k {:trigger rs[k]} | i < k < |rs| && k < j :: !AnswersKey(states[k], rs[k], key)
  {
    var p := states[i].gate.permits[key];
    LeaseTaken(states[i], rs[i], p.worker, p.slug);
    KeyCases(states[i], rs[i], key);
    hide Step;
    LostPermitsStay(states, rs, key, i + 1, j);
  }

  /** The worker that is answered with a lease holds the key it names. */
  lemma LeaseIsGranted(s: State, r: Request, accepted: set<Slug>)
    ensures var (s', reply) := ClaimStep(s, r, accepted);
      reply.Lease? ==>
        var key := KeyOf(reply.slug, reply.shardIndex);
        key in s'.board.claims && s'.board.claims[key].worker == Some(r.worker)
  {
    hide RunningKeys, NormalRunning, PickPrimary, PickSecondary, PickNormal, CountUnresolved, Grant;
    var (b, primary) := PickPrimary(s.board, s.modeGames, accepted, r.now);
    if primary.Some? {
      GrantMarks(s.(board := b), r, Primary(primary.value), true, 1);
    } else {
      var secondary := if s.topology.maxShards < 2 then None else PickSecondary(b, s.modeGames, r.node, r.now);
      if secondary.Some? {
        GrantMarks(s.(board := b), r, Secondary(secondary.value), true, 2);
      } else {
        var (b', normal) := PickNormal(b, s.games, s.modeGames, accepted, r.now);
        if normal.Some? { GrantMarks(s.(board := b'), r, Primary(normal.value), false, 0); }
      }
    }
  }
}
