/** Where the lease bookkeeping promises less than its constants and messages suggest, and exactly how much less. */
module LeaseLimits {
  import opened Base
  import opened CoordinatorTypes
  import opened CoordinatorSteps
  import opened LeaseSafety
  import opened ReturnedLeases
  import EgressSafety
  import RoundFiles

  // ----- the retry limit -----

  /** The lease under `key` is given back as failed for now. */
  ghost predicate Retries(s: State, r: Request, key: ClaimKey) {
    Returns(s, r, key) && r.op.status == Retryable
  }

  /** How often a key was given back as failed for now since it was last leased. */
  ghost function RetriesSince(states: seq<State>, rs: seq<Request>, key: ClaimKey, n: nat): nat
    requires Behavior(states, rs) && n <= |rs|
    decreases n
  {
    if n == 0 || Leases(states[n - 1], rs[n - 1], key) then 0
    else RetriesSince(states, rs, key, n - 1) + if Retries(states[n - 1], rs[n - 1], key) then 1 else 0
  }

  /** The count kept with a lease is `retries`, and the lease is running only if `ran` allows it. */
  ghost predicate Counts(b: Board, key: ClaimKey, retries: nat, ran: bool) {
    && (key in b.claims && b.claims[key] != ACCEPTED_CLAIM ==> b.claims[key].retryCount == retries)
    && (RunningAt(b.claims, key) ==> ran)
  }

  lemma {:induction false} PassesCount(b: Board, slugs: seq<Slug>, modeGames: seq<Slug>, accepted: set<Slug>, now: int,
                                       key: ClaimKey, retries: nat, ran: bool)
    requires Counts(b, key, retries, ran)
    ensures Counts(PickPrimary(b, slugs, accepted, now).0, key, retries, ran)
    ensures Counts(PickNormal(b, slugs, modeGames, accepted, now).0, key, retries, ran)
    decreases slugs
  {
    if slugs != [] {
      PassesCount(b, slugs[1..], modeGames, accepted, now, key, retries, ran);
      PassesCount(AcceptSpecial(b, slugs[0]), slugs[1..], modeGames, accepted, now, key, retries, ran);
      PassesCount(AcceptNormal(b, slugs[0]), slugs[1..], modeGames, accepted, now, key, retries, ran);
    }
  }

  lemma GrantCounts(s: State, r: Request, granted: ClaimKey, special: bool, shard: nat, key: ClaimKey, retries: nat,
                    ran: bool)
    requires Counts(s.board, key, retries, ran) && granted == KeyOf(granted.slug, shard)
    ensures var (s', reply) := Grant(s, r, granted, special, shard);
      if reply.Lease? && KeyOf(reply.slug, reply.shardIndex) == key then Counts(s'.board, key, 0, true)
      else Counts(s'.board, key, retries, ran)
  {
    hide NodeTaken, SpreadsFirst, Touch, NextGame;
  }

  lemma ScheduleCounts(s: State, r: Request, accepted: set<Slug>, key: ClaimKey, retries: nat, ran: bool)
    requires Counts(s.board, key, retries, ran)
    ensures var (s', reply) := Schedule(s, r, accepted);
      if reply.Lease? && KeyOf(reply.slug, reply.shardIndex) == key then Counts(s'.board, key, 0, true)
      else Counts(s'.board, key, retries, ran)
  {
    hide PickPrimary, PickNormal, PickSecondary, CountUnresolved, Grant, Counts, RunningKeys, NormalRunning;
    PassesCount(s.board, s.modeGames, s.modeGames, accepted, r.now, key, retries, ran);
    var (b, primary) := PickPrimary(s.board, s.modeGames, accepted, r.now);
    if primary.Some? {
      GrantCounts(s.(board := b), r, Primary(primary.value), true, 1, key, retries, ran);
    } else {
      var secondary := if s.topology.maxShards < 2 then None else PickSecondary(b, s.modeGames, r.node, r.now);
      if secondary.Some? {
        GrantCounts(s.(board := b), r, Secondary(secondary.value), true, 2, key, retries, ran);
      } else {
        PassesCount(b, s.games, s.modeGames, accepted, r.now, key, retries, ran);
        var (b', normal) := PickNormal(b, s.games, s.modeGames, accepted, r.now);
        if normal.Some? { GrantCounts(s.(board := b'), r, Primary(normal.value), false, 0, key, retries, ran); }
      }
    }
  }

  lemma LeasedCounts(s: State, r: Request, held: ClaimKey, key: ClaimKey, retries: nat, ran: bool)
    requires UnderLease(s, r) && WorkerClaim(s.board.claims, r.worker, SlugOf(r.op)) == Some(held)
    requires Counts(s.board, key, retries, ran)
    ensures Counts(LeasedStep(s, r, held).0.board, key, retries + (if Retries(s, r, key) then 1 else 0),
                   (ran && !Retries(s, r, key)) || !GivesBack(r))
  {
    hide ReserveStep, AppendStep, AckStep, PermitStep, AfterSpecial, SyncGame, Throttled, NodeOf, Drop, Evicted;
    if !r.op.Response? && !r.op.Done? { EgressSafety.OtherFence(s, r, held); }
  }

  lemma StepCounts(s: State, r: Request, key: ClaimKey, retries: nat, ran: bool)
    requires Counts(s.board, key, retries, ran)
    ensures
      if Leases(s, r, key) then Counts(Step(s, r).0.board, key, 0, true)
      else Counts(Step(s, r).0.board, key, retries + (if Retries(s, r, key) then 1 else 0),
                  (ran && !Retries(s, r, key)) || !GivesBack(r))
  {
    hide Schedule, LeasedStep, BeginStep, RunningKeys, RunningOn;
    if r.op.Begin? {
      BeginCounts(s, r, key, retries, ran);
    } else if r.op.Claims? {
      ScheduleCounts(s, r, r.op.accepted, key, retries, ran);
    } else if UnderLease(s, r) {
      LeasedCounts(s, r, WorkerClaim(s.board.claims, r.worker, SlugOf(r.op)).value, key, retries, ran);
    }
  }

  lemma BeginCounts(s: State, r: Request, key: ClaimKey, retries: nat, ran: bool)
    requires r.op.Begin? && Counts(s.board, key, retries, ran)
    ensures Counts(BeginStep(s, r).0.board, key, retries, ran)
  {
    hide ChosenGames;
  }

  lemma {:induction false} CountAt(states: seq<State>, rs: seq<Request>, key: ClaimKey, n: nat)
    requires Behavior(states, rs) && states[0].board.claims == map[] && n <= |rs|
    ensures Counts(states[n].board, key, RetriesSince(states, rs, key, n), true)
    decreases n
  {
    hide Step, Leases, Retries;
    if n > 0 {
      CountAt(states, rs, key, n - 1);
      StepCounts(states[n - 1], rs[n - 1], key, RetriesSince(states, rs, key, n - 1), true);
    }
  }

  /**
   The limit of two transient failures, exactly, in every history: a game that failed for now is open again when its
   minute has passed and its last lease was given back that way only once. Failures under earlier leases do not count.
   */
  lemma RetryLimitExact(states: seq<State>, rs: seq<Request>, key: ClaimKey, n: nat, now: int)
    requires Behavior(states, rs) && states[0].board.claims == map[] && n <= |rs|
    ensures key in states[n].board.claims && states[n].board.claims[key].status == Retryable ==>
      (Reclaimable(states[n].board.claims[key], now)
       <==> states[n].board.claims[key].retryAt <= now && RetriesSince(states, rs, key, n) < 2)
  {
    hide Step, RetriesSince;
    CountAt(states, rs, key, n);
  }

  lemma {:induction false} RetriesOnce(states: seq<State>, rs: seq<Request>, key: ClaimKey, n: nat)
    requires Behavior(states, rs) && states[0].board.claims == map[] && n <= |rs|
    requires forall j {:trigger rs[j]} | 0 <= j < |rs| ::
      GivesBack(rs[j]) && (Retries(states[j], rs[j], key) ==> RunningAt(states[j].board.claims, key))
    ensures RetriesSince(states, rs, key, n) <= 1
    ensures RunningAt(states[n].board.claims, key) ==> RetriesSince(states, rs, key, n) == 0
    decreases n
  {
    hide Step, Leases, Retries, GivesBack;
    if n > 0 {
      RetriesOnce(states, rs, key, n - 1);
      CountAt(states, rs, key, n - 1);
      var s := states[n - 1];
      CountsRan(s.board, key, RetriesSince(states, rs, key, n - 1));
      StepCounts(s, rs[n - 1], key, RetriesSince(states, rs, key, n - 1), RunningAt(s.board.claims, key));
    }
  }

  lemma CountsRan(b: Board, key: ClaimKey, retries: nat)
    requires Counts(b, key, retries, true)
    ensures Counts(b, key, retries, RunningAt(b.claims, key))
  {
  }

  /** So the limit never takes effect while workers report only running leases as failed for now. */
  lemma RetryLimitNeverBinds(states: seq<State>, rs: seq<Request>, key: ClaimKey, n: nat, now: int)
    requires Behavior(states, rs) && states[0].board.claims == map[] && n <= |rs|
    requires forall j {:trigger rs[j]} | 0 <= j < |rs| ::
      GivesBack(rs[j]) && (Retries(states[j], rs[j], key) ==> RunningAt(states[j].board.claims, key))
    ensures key in states[n].board.claims && states[n].board.claims[key].status == Retryable ==>
      (Reclaimable(states[n].board.claims[key], now) <==> states[n].board.claims[key].retryAt <= now)
  {
    hide Step, Retries, GivesBack, RetriesSince;
    RetriesOnce(states, rs, key, n);
    RetryLimitExact(states, rs, key, n, now);
  }

  // ----- a game that fails any number of times -----

  const FAILING := Primary("a")

  /** The claim entry after `k` failures, one a minute. */
  function Waited(k: pos): Claim {
    Claim(Retryable, Some("1.1"), Some("1"), true, 1, TRANSIENT_RETRY_MS * (k - 1), TRANSIENT_RETRY_MS * k, 1)
  }

  function Collecting(k: nat): Claim {
    Claim(Running, Some("1.1"), Some("1"), true, 1, TRANSIENT_RETRY_MS * k, 0, 0)
  }

  function FailState(deadline: int, claims: map<ClaimKey, Claim>, next: int): State {
    State(true, Some("run"), deadline, Topology(2, 1, 9, 9, 4, 2, false, false, 0), ["a"], ["a"], Some("a"), next, false,
          Board(claims, map["a" := NO_QUOTA]), Gate(0, map[], [], map[], map[], {}, []),
          Disk(map[], map[], map["a" := {}], map[], map[], map[]), map[], 0)
  }

  function AfterFailures(deadline: int, k: nat): State {
    if k == 0 then FailState(deadline, map[], 0)
    else FailState(deadline, map[FAILING := Waited(k)], TRANSIENT_RETRY_MS * (k - 1))
  }

  function WhileCollecting(deadline: int, k: nat): State {
    FailState(deadline, map[FAILING := Collecting(k)], TRANSIENT_RETRY_MS * k)
  }

  function AskAgain(k: nat): Request {
    Request("run", TRANSIENT_RETRY_MS * k, "1.1", "1", Claims({}))
  }

  function FailAgain(k: nat): Request {
    Request("run", TRANSIENT_RETRY_MS * k, "1.1", "1", Done("a", Retryable))
  }

  lemma Reopened(deadline: int, k: nat)
    requires TRANSIENT_RETRY_MS * k < deadline
    ensures Step(AfterFailures(deadline, k), AskAgain(k)) == (WhileCollecting(deadline, k), Lease("a", true, 1))
  {
    hide BusyNodes, NodeTaken;
    var s, r := AfterFailures(deadline, k), AskAgain(k);
    FailCaps(s.board.claims);
    OneGame(s.board, r.now);
    assert s.board.claims[FAILING := Collecting(k)] == WhileCollecting(deadline, k).board.claims;
    assert NextGame(["a"], "a") == "a";
  }

  lemma FailCaps(claims: map<ClaimKey, Claim>)
    requires forall k | k in claims :: claims[k].status != Running
    ensures RunningKeys(claims) == {} && forall node :: RunningOn(claims, node) == {}
  {
  }

  lemma OneGame(b: Board, now: int)
    requires !SkipsPrimary(b, "a", now)
    ensures PickPrimary(b, ["a"], {}, now) == (b, Some("a"))
  {
  }

  lemma FailedAgain(deadline: int, k: nat)
    ensures Step(WhileCollecting(deadline, k), FailAgain(k)).0 == AfterFailures(deadline, k + 1)
    ensures Retries(WhileCollecting(deadline, k), FailAgain(k), FAILING)
  {
    var s := WhileCollecting(deadline, k);
    assert s.board.claims[FAILING := Waited(k + 1)] == map[FAILING := Waited(k + 1)];
    assert s.board.quotas["a" := NO_QUOTA] == s.board.quotas;
  }

  /** A game can fail for now any number of times in one run: after each failure it opens again when its minute has passed. */
  lemma {:induction false} FailsAnyNumberOfTimes(deadline: int, n: nat) returns (states: seq<State>, rs: seq<Request>)
    requires TRANSIENT_RETRY_MS * n < deadline
    ensures Behavior(states, rs) && |rs| == 2 * n && states[0].board.claims == map[]
    ensures forall k | 0 <= k < n :: Retries(states[2 * k + 1], rs[2 * k + 1], FAILING)
    ensures states[|rs|] == AfterFailures(deadline, n)
    ensures n > 0 ==>
      FAILING in states[|rs|].board.claims && Reclaimable(states[|rs|].board.claims[FAILING], TRANSIENT_RETRY_MS * n)
    decreases n
  {
    hide Step, Retries;
    if n == 0 {
      states, rs := [AfterFailures(deadline, 0)], [];
    } else {
      var before, asked := FailsAnyNumberOfTimes(deadline, n - 1);
      Reopened(deadline, n - 1);
      FailedAgain(deadline, n - 1);
      states := before + [WhileCollecting(deadline, n - 1), AfterFailures(deadline, n)];
      rs := asked + [AskAgain(n - 1), FailAgain(n - 1)];
      forall j {:trigger rs[j]} | 0 <= j < |rs| ensures states[j + 1] == Step(states[j], rs[j]).0 {
        if j < |asked| { assert rs[j] == asked[j]; }
      }
      forall k | 0 <= k < n ensures Retries(states[2 * k + 1], rs[2 * k + 1], FAILING) {
        if k < n - 1 { assert states[2 * k + 1] == before[2 * k + 1] && rs[2 * k + 1] == asked[2 * k + 1]; }
      }
    }
  }

  /** And it does take effect: a lease given back twice as failed for now leaves its game closed, whatever the clock. */
  lemma RepeatedReportsBind(s: State, first: Request, second: Request, key: ClaimKey, now: int)
    requires Retries(s, first, key) && second.run == first.run && second.worker == first.worker && second.op == first.op
    ensures var s' := Step(Step(s, first).0, second).0;
      && Retries(Step(s, first).0, second, key)
      && key in s'.board.claims && s'.board.claims[key].status == Retryable && !Reclaimable(s'.board.claims[key], now)
  {
    hide AfterSpecial, SyncGame;
    DoneKeepsHolder(s, first);
  }

  // ----- who may write -----

  /**
   Giving a lease back does not end the right to act under it: the worker still passes the lease check, whatever
   status it reported, and the rounds of its next valid batch are in the file afterwards.
   */
  lemma FinishedLeasesStillWrite(s: State, r: Request, append: Request)
    requires RoundFiles.FilesInv(s) && UnderLease(s, r) && r.op.Done?
    requires append.run == r.run && append.worker == r.worker && append.op.Append? && append.op.slug == r.op.slug
    requires ValidBatch(r.op.slug, append.op.docs)
    ensures var s' := Step(s, r).0; var s'' := Step(s', append).0; var slug := r.op.slug;
      && WorkerClaim(s'.board.claims, r.worker, slug) == WorkerClaim(s.board.claims, r.worker, slug)
      && RoundFiles.LinesAt(s''.disk, slug) == RoundFiles.Stored(RoundFiles.LinesAt(s.disk, slug), append.op.docs)
      && (forall doc | doc in append.op.docs :: doc.hash in Hashes(RoundFiles.LinesAt(s''.disk, slug)))
  {
    hide Step, ValidBatch, Hashes, RoundFiles.FileInv, RoundFiles.Stored;
    DoneKeepsHolder(s, r);
    var s' := Step(s, r).0;
    forall slug ensures RoundFiles.FileInv(s', slug) { RoundFiles.FileStep(s, r, slug); }
    RoundFiles.FileStep(s, r, r.op.slug);
    RoundFiles.NothingStored(RoundFiles.LinesAt(s.disk, r.op.slug));
    RoundFiles.FileStep(s', append, r.op.slug);
    RoundFiles.StoredHashes(RoundFiles.LinesAt(s.disk, r.op.slug), append.op.docs);
    forall doc | doc in append.op.docs ensures doc.hash in RoundFiles.SetOf(HashesOf(append.op.docs)) {
      var i :| 0 <= i < |append.op.docs| && append.op.docs[i] == doc;
      assert HashesOf(append.op.docs)[i] == doc.hash;
    }
  }

  lemma DoneKeepsHolder(s: State, r: Request)
    requires UnderLease(s, r) && r.op.Done?
    ensures var s' := Step(s, r).0;
      && s'.owner == s.owner
      && WorkerClaim(s'.board.claims, r.worker, r.op.slug) == WorkerClaim(s.board.claims, r.worker, r.op.slug)
  {
    hide AfterSpecial, SyncGame;
  }
}
