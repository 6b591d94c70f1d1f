/**
 The coordinator as the program runs it: one object whose fields the operations update in place. Every operation is
 proved to take the abstract state of `CoordinatorSteps` to exactly the state and reply its step prescribes.
 */
module Coordinator {
  import opened Base
  import opened CoordinatorTypes
  import Steps = CoordinatorSteps
  import QuotaSafety

  class Store {
    const daemon: bool
    var owner: Option<Run>
    var deadline: int
    var topology: Topology
    var games: seq<Slug>
    var modeGames: seq<Slug>
    var cursor: Option<Slug>
    var nextClaimAt: int
    var serverHalt: bool

    /** Leases and mode quotas. */
    var board: Board
    /** Permits, throttling records and the shared pause. */
    var gate: Gate
    /** Round files, their indexes and the daemon's caches of them. */
    var disk: Disk

    var journals: Journal
    var responses: nat

    ghost function View(): State
      reads this
    {
      State(daemon, owner, deadline, topology, games, modeGames, cursor, nextClaimAt, serverHalt, board, gate, disk,
            journals, responses)
    }

    /** A server over existing files that has never begun a run. */
    constructor (daemon: bool, topology: Topology, until: int, files: Disk, journals: Journal)
      ensures Steps.Initial(View()) && View().disk == files && View().journal == journals
      ensures this.daemon == daemon && View().topology == topology && View().gate.until == until
    {
      this.daemon, this.topology, this.journals := daemon, topology, journals;
      board, gate, disk := Board(map[], map[]), Gate(until, map[], [], map[], map[], {}, []), files;
      owner, deadline, games, modeGames, cursor, nextClaimAt, serverHalt := None, 0, [], [], None, 0, false;
      responses := 0;
    }

    // ----- round files -----

    method SyncGame(slug: Slug)
      modifies this`disk
      ensures disk == Steps.SyncGame(old(disk), slug)
    {
      if Get(disk.unsynced, slug, 0) == 0 { return; }
      disk := disk.(durable := disk.durable[slug := |Get(disk.ndjson, slug, [])|]);
      disk := disk.(unsynced := disk.unsynced - {slug});
    }

    /** The synced length of a file once its pending lines, if any, are synced. */
    function SyncedTo(before: map<Slug, nat>, pending: map<Slug, nat>, slug: Slug): nat
      reads this`disk
    {
      if Get(pending, slug, 0) == 0 then Get(before, slug, 0) else |Get(disk.ndjson, slug, [])|
    }

    /** On shutdown every game is synced. */
    method SyncAll()
      modifies this`disk
      ensures forall slug :: Get(disk.unsynced, slug, 0) == 0
      ensures forall slug :: Get(disk.durable, slug, 0) == SyncedTo(old(disk.durable), old(disk.unsynced), slug)
    {
      var todo := disk.unsynced.Keys;
      while todo != {}
        invariant todo <= old(disk.unsynced).Keys
        invariant forall slug :: Get(disk.unsynced, slug, 0) == if slug in todo then Get(old(disk.unsynced), slug, 0) else 0
        invariant forall slug ::
          Get(disk.durable, slug, 0) == if slug in todo then Get(old(disk.durable), slug, 0)
                                   else SyncedTo(old(disk.durable), old(disk.unsynced), slug)
        decreases todo
      {
        var slug :| slug in todo;
        SyncGame(slug);
        todo := todo - {slug};
      }
    }

    method SeedIndex(lines: seq<Line>) returns (seeded: seq<Hash>)
      ensures seeded == Steps.Seeded(lines)
    {
      seeded := [];
      var i := 0;
      assert lines[0..] == lines;
      while i < |lines|
        invariant 0 <= i <= |lines|
        invariant seeded + Steps.Seeded(lines[i..]) == Steps.Seeded(lines)
      {
        if lines[i].Round? { seeded := seeded + [lines[i].hash]; }
        assert lines[i..][1..] == lines[i + 1..];
        i := i + 1;
      }
    }

    /** The hashes stored for a game; a missing index is rebuilt from the file. */
    method HashesOf(slug: Slug) returns (known: set<Hash>)
      modifies this`disk
      ensures known == Steps.Known(old(disk), slug, daemon)
      ensures disk == Steps.Touch(old(disk), slug, daemon)
    {
      if daemon && slug in disk.cache { return disk.cache[slug]; }
      if slug !in disk.index {
        var seeded := SeedIndex(Get(disk.ndjson, slug, []));
        disk := disk.(index := disk.index[slug := seeded]);
      }
      var index := disk.index[slug];
      known := set h | h in index;
      if daemon { disk := disk.(cache := disk.cache[slug := known]); }
    }

    // ----- leases -----

    method ReleaseModeReservation(worker: Worker, slug: Slug)
      modifies this`board
      ensures board == old(board).(quotas :=
        if slug in old(board.quotas) then old(board.quotas)[slug := Steps.Drop(old(board.quotas)[slug], {worker})]
        else old(board.quotas))
    {
      if slug in board.quotas && board.quotas[slug].frozen.Some? {
        var frozen := board.quotas[slug].frozen.value;
        var quota := board.quotas[slug].(frozen := Some(frozen.(reservations := frozen.reservations - {worker})));
        board := board.(quotas := board.quotas[slug := quota]);
      }
    }

    ghost function EvictedFrom(before: map<ClaimKey, Claim>, visited: set<ClaimKey>, slug: Slug, node: Node): set<Worker> {
      (if Primary(slug) in visited then Steps.Evicted(before, Primary(slug), node) else {})
      + (if Secondary(slug) in visited then Steps.Evicted(before, Secondary(slug), node) else {})
    }

    /** Hand one lease back if it runs on the node; clearing the worker fences off whatever it still sends. */
    method ReleaseLease(key: ClaimKey, node: Node)
      requires key in board.claims
      modifies this`board
      ensures board.claims == old(board.claims)[key := Steps.Evict(old(board.claims)[key], node)]
      ensures board.quotas.Keys == old(board.quotas).Keys
      ensures forall slug | slug in old(board.quotas) ::
        board.quotas[slug] == Steps.Drop(old(board.quotas)[slug], EvictedFrom(old(board.claims), {key}, slug, node))
    {
      forall slug | slug in board.quotas
        ensures board.quotas[slug] == Steps.Drop(board.quotas[slug], {})
      {
        DropNothing(board.quotas[slug]);
      }
      var claim := board.claims[key];
      ghost var gone := Steps.Evicted(board.claims, key, node);
      assert forall slug :: EvictedFrom(board.claims, {key}, slug, node) == if slug == key.slug then gone else {};
      var worker := if claim.worker.Some? then claim.worker.value else "";
      if claim.status == Running && NodeOf(worker) == node {
        ReleaseModeReservation(worker, key.slug);
        board := board.(claims := board.claims[key := claim.(status := Released, worker := Some(""))]);
      }
    }

    /** Hand back every running lease of a node. */
    method ReleaseNode(node: Node)
      modifies this`board
      ensures board == Steps.ReleaseNode(old(board), node)
    {
      hide Steps.Drop, Steps.Evict, Steps.Evicted, EvictedFrom;
      ghost var before, quotas := board.claims, board.quotas;
      ghost var visited: set<ClaimKey> := {};
      var todo := board.claims.Keys;
      forall slug | slug in quotas ensures quotas[slug] == Steps.Drop(quotas[slug], EvictedFrom(before, {}, slug, node)) {
        EvictedNowhere(before, slug, node);
        DropNothing(quotas[slug]);
      }
      while todo != {}
        invariant visited + todo == before.Keys && visited !! todo
        invariant board.claims.Keys == before.Keys && board.quotas.Keys == quotas.Keys
        invariant forall k | k in before ::
          board.claims[k] == if k in visited then Steps.Evict(before[k], node) else before[k]
        invariant forall slug | slug in quotas ::
          board.quotas[slug] == Steps.Drop(quotas[slug], EvictedFrom(before, visited, slug, node))
        decreases todo
      {
        var key :| key in todo;
        ghost var claims, was := board.claims, board.quotas;
        ReleaseLease(key, node);
        forall slug | slug in quotas
          ensures board.quotas[slug] == Steps.Drop(quotas[slug], EvictedFrom(before, visited + {key}, slug, node))
        {
          EvictedAlso(before, claims, visited, key, slug, node);
          DropTwice(quotas[slug], EvictedFrom(before, visited, slug, node), EvictedFrom(claims, {key}, slug, node));
        }
        visited := visited + {key};
        todo := todo - {key};
      }
      assert visited == before.Keys;
      forall slug | slug in quotas
        ensures EvictedFrom(before, visited, slug, node)
             == Steps.Evicted(before, Primary(slug), node) + Steps.Evicted(before, Secondary(slug), node)
      {
        EvictedEverywhere(before, slug, node);
      }
    }

    lemma EvictedAlso(before: map<ClaimKey, Claim>, claims: map<ClaimKey, Claim>, visited: set<ClaimKey>, key: ClaimKey,
                      slug: Slug, node: Node)
      requires key in before && key in claims && before[key] == claims[key] && key !in visited
      ensures EvictedFrom(before, visited + {key}, slug, node)
           == EvictedFrom(before, visited, slug, node) + EvictedFrom(claims, {key}, slug, node)
    {
    }

    lemma EvictedNowhere(before: map<ClaimKey, Claim>, slug: Slug, node: Node)
      ensures EvictedFrom(before, {}, slug, node) == {}
    {
    }

    lemma EvictedEverywhere(before: map<ClaimKey, Claim>, slug: Slug, node: Node)
      ensures EvictedFrom(before, before.Keys, slug, node)
           == Steps.Evicted(before, Primary(slug), node) + Steps.Evicted(before, Secondary(slug), node)
    {
    }

    static lemma DropNothing(q: Quota)
      ensures Steps.Drop(q, {}) == q
    {
      if q.frozen.Some? { assert q.frozen.value.reservations - {} == q.frozen.value.reservations; }
    }

    static lemma DropTwice(q: Quota, a: set<Worker>, b: set<Worker>)
      ensures Steps.Drop(Steps.Drop(q, a), b) == Steps.Drop(q, a + b)
    {
      if q.frozen.Some? {
        assert q.frozen.value.reservations - a - b == q.frozen.value.reservations - (a + b);
      }
    }

    method GrantClaim(r: Request, key: ClaimKey, special: bool, shard: nat) returns (reply: Reply)
      modifies this`board, this`cursor, this`nextClaimAt, this`disk
      ensures (View(), reply) == Steps.Grant(old(View()), r, key, special, shard)
    {
      hide Steps.Touch, Steps.Known, Steps.NextGame, Steps.NewClaim;
      var here := set k | k in board.claims && board.claims[k].status == Running && board.claims[k].node == Some(r.node);
      assert here == Steps.RunningOn(board.claims, r.node);
      // a purchase lease owns its node; normal leases may share an idle one
      if topology.fillIdleNormal && exists k | k in here :: special || board.claims[k].specialOnly { return Backoff; }
      // normal leases spread over idle nodes first, for at most four polling intervals
      var busy := set k | k in board.claims && board.claims[k].status == Running :: board.claims[k].node;
      if topology.fillIdleNormal && !special && |busy| < topology.nodes
         && exists k | k in here :: r.now - board.claims[k].claimedAt < CLAIM_WAIT_MAX_MS * 4 {
        return Backoff;
      }
      reply := TakeLease(r, key, special, shard);
    }

    method TakeLease(r: Request, key: ClaimKey, special: bool, shard: nat) returns (reply: Reply)
      modifies this`board, this`cursor, this`nextClaimAt, this`disk
      ensures board == old(board).(claims := old(board.claims)[key := Steps.NewClaim(r, special, shard)])
      ensures cursor == if shard != 2 then Some(Steps.NextGame(games, key.slug)) else old(cursor)
      ensures nextClaimAt == r.now + topology.claimStartSpacingMs && disk == Steps.Touch(old(disk), key.slug, daemon)
      ensures reply == Lease(key.slug, special, shard)
    {
      hide Steps.Touch, Steps.Known, Steps.NextGame;
      var known := HashesOf(key.slug);
      var claim := Claim.Claim(Running, Some(r.worker), Some(r.node), special, shard, r.now, 0, 0);
      board := board.(claims := board.claims[key := claim]);
      if shard != 2 { cursor := Some(Steps.NextGame(games, key.slug)); }
      nextClaimAt := r.now + topology.claimStartSpacingMs;
      return Lease(key.slug, special, shard);
    }

    /** The first pass: the first purchase game that waits for its first shard. */
    method PassPrimary(now: int, accepted: set<Slug>) returns (pick: Option<Slug>)
      modifies this`board
      ensures (board, pick) == Steps.PickPrimary(old(board), modeGames, accepted, now)
    {
      var i := 0;
      assert modeGames[0..] == modeGames;
      while i < |modeGames|
        invariant 0 <= i <= |modeGames|
        invariant Steps.PickPrimary(old(board), modeGames, accepted, now)
               == Steps.PickPrimary(board, modeGames[i..], accepted, now)
      {
        var slug := modeGames[i];
        assert modeGames[i..][0] == slug && modeGames[i..][1..] == modeGames[i + 1..];
        i := i + 1;
        var quota := Get(board.quotas, slug, NO_QUOTA);
        if quota.specialComplete || quota.unavailable { continue; }
        if Primary(slug) in board.claims {
          var primary := board.claims[Primary(slug)];
          if !Reclaimable(primary, now) { continue; }
          if primary.status == ShardComplete && Steps.RunningAt(board.claims, Secondary(slug)) { continue; }
        }
        if slug in accepted {
          board := board.(claims := board.claims[Primary(slug) := ACCEPTED_CLAIM]);
          board := board.(quotas := board.quotas[slug := ACCEPTED_QUOTA]);
          continue;
        }
        return Some(slug);
      }
      return None;
    }

    /** The second pass: the first purchase game that takes a second shard on this node. */
    method PassSecondary(now: int, node: Node) returns (pick: Option<Slug>)
      ensures pick == if topology.maxShards < 2 then None else Steps.PickSecondary(board, modeGames, node, now)
    {
      var i := 0;
      assert modeGames[0..] == modeGames;
      while i < |modeGames|
        invariant 0 <= i <= |modeGames|
        invariant Steps.PickSecondary(board, modeGames, node, now) == Steps.PickSecondary(board, modeGames[i..], node, now)
      {
        if topology.maxShards < 2 { break; }
        var slug := modeGames[i];
        assert modeGames[i..][0] == slug && modeGames[i..][1..] == modeGames[i + 1..];
        i := i + 1;
        var quota := Get(board.quotas, slug, NO_QUOTA);
        if quota.specialComplete || quota.unavailable || Primary(slug) !in board.claims { continue; }
        var primary := board.claims[Primary(slug)];
        if primary.status !in {Running, Unavailable} || primary.node == Some(node) { continue; }
        if Secondary(slug) in board.claims && !Reclaimable(board.claims[Secondary(slug)], now) { continue; }
        return Some(slug);
      }
      return None;
    }

    /** The third pass: the first game that can be collected normally. */
    method PassNormal(now: int, accepted: set<Slug>) returns (pick: Option<Slug>)
      modifies this`board
      ensures (board, pick) == Steps.PickNormal(old(board), games, modeGames, accepted, now)
    {
      var i := 0;
      assert games[0..] == games;
      while i < |games|
        invariant 0 <= i <= |games|
        invariant Steps.PickNormal(old(board), games, modeGames, accepted, now)
               == Steps.PickNormal(board, games[i..], modeGames, accepted, now)
      {
        var slug := games[i];
        assert games[i..][0] == slug && games[i..][1..] == games[i + 1..];
        i := i + 1;
        if slug in modeGames && !Get(board.quotas, slug, NO_QUOTA).specialComplete { continue; }
        if Steps.SpecialRunning(board.claims, Primary(slug)) || Steps.SpecialRunning(board.claims, Secondary(slug)) {
          continue;
        }
        if Primary(slug) in board.claims && !Reclaimable(board.claims[Primary(slug)], now) { continue; }
        if slug in accepted {
          board := board.(claims := board.claims[Primary(slug) := ACCEPTED_CLAIM]);
          continue;
        }
        return Some(slug);
      }
      return None;
    }

    /** Purchase games first, then second shards, then normal rounds on what is left. */
    method Schedule(r: Request, accepted: set<Slug>) returns (reply: Reply)
      modifies this
      ensures (View(), reply) == Steps.Schedule(old(View()), r, accepted)
    {
      hide Steps.PickPrimary, Steps.PickSecondary, Steps.PickNormal, Steps.Grant, Steps.CountUnresolved;
      ghost var start := View();
      var normalRunning := |set k | k in board.claims && board.claims[k].status == Running && !board.claims[k].specialOnly|;
      assert normalRunning == |Steps.NormalRunning(board.claims)|;
      var primary := PassPrimary(r.now, accepted);
      assert View() == start.(board := Steps.PickPrimary(start.board, start.modeGames, accepted, r.now).0);
      if primary.Some? {
        reply := GrantClaim(r, Primary(primary.value), true, 1);
        return;
      }
      var secondary := PassSecondary(r.now, r.node);
      if secondary.Some? {
        reply := GrantClaim(r, Secondary(secondary.value), true, 2);
        return;
      }
      // purchase games that are not finished keep a seat each
      var waiting := Steps.CountUnresolved(board, modeGames);
      if waiting > 0 && (!topology.fillIdleNormal || normalRunning >= Max(0, topology.maxClaims - waiting)) {
        return Backoff;
      }
      ghost var second := View();
      var normal := PassNormal(r.now, accepted);
      assert View() == second.(board := Steps.PickNormal(second.board, start.games, start.modeGames, accepted, r.now).0);
      if normal.Some? {
        reply := GrantClaim(r, Primary(normal.value), false, 0);
        return;
      }
      var left := set k | k in board.claims && board.claims[k].status == Running;
      assert left == Steps.RunningKeys(board.claims);
      return if left != {} then Backoff else Stop;
    }

    method ClaimGame(r: Request, accepted: set<Slug>) returns (reply: Reply)
      modifies this
      ensures (View(), reply) == Steps.ClaimStep(old(View()), r, accepted)
    {
      hide Steps.Schedule;
      if r.node in gate.halted || (topology.sharedEgress && LOCAL_EGRESS in gate.halted) { return Halted; }
      if serverHalt { return Halted; }
      if deadline <= r.now || deadline <= gate.until { return Stop; }
      if r.now < gate.until { return Wait(Min(30_000, gate.until - r.now)); }
      var running := set k | k in board.claims && board.claims[k].status == Running;
      assert running == Steps.RunningKeys(board.claims);
      if |running| >= topology.maxClaims { return Backoff; }
      var here := set k | k in running && board.claims[k].node == Some(r.node);
      assert here == Steps.RunningOn(board.claims, r.node);
      if |here| >= PerNode(topology) { return Backoff; }
      if r.now < nextClaimAt { return Wait(Min(15_000, nextClaimAt - r.now)); }
      reply := Schedule(r, accepted);
    }

    // ----- mode quotas -----

    /** The rounds of a mode that other workers still owe. */
    method SumOwed(reservations: map<Worker, Reservation>, mode: Mode) returns (sum: nat)
      ensures sum == Steps.Outstanding(reservations, mode)
    {
      sum := 0;
      var rest := reservations;
      while rest != map[]
        invariant sum + Steps.Outstanding(rest, mode) == Steps.Outstanding(reservations, mode)
        decreases |rest|
      {
        var worker :| worker in rest;
        QuotaSafety.OutstandingRemove(rest, worker, mode);
        sum := sum + Steps.Owed(rest[worker], mode);
        rest := rest - {worker};
      }
    }

    /** An even split, over the shards still without a reservation, of what nobody else owes. */
    method ShareOf(f: Frozen, worker: Worker, mode: Mode, maxShards: pos) returns (share: nat)
      requires mode in f.targets
      ensures share == Steps.Share(f, worker, mode, maxShards)
    {
      var others := f.reservations - {worker};
      var outstanding := SumOwed(others, mode);
      var target: int, count: int := f.targets[mode], Get(f.counts, mode, 0);
      var remaining := Max(0, target - count - outstanding);
      var slots := Max(1, maxShards - |Steps.Owners(others, mode)|);
      return CeilDiv(remaining, slots);
    }

    method NewReservation(f: Frozen, worker: Worker, maxShards: pos) returns (mine: Reservation)
      requires worker !in f.reservations
      ensures mine == Steps.ReservationOf(f, worker, maxShards)
    {
      hide Steps.Share;
      var todo := f.targets.Keys - {0};
      var reserved: map<Mode, nat> := map[];
      var done: map<Mode, nat> := map[];
      while todo != {}
        invariant todo <= f.targets.Keys - {0}
        invariant reserved.Keys == done.Keys == f.targets.Keys - {0} - todo
        invariant forall m | m in reserved :: reserved[m] == Steps.Share(f, worker, m, maxShards) && done[m] == 0
        decreases todo
      {
        EmptyOrHas(todo);
        var mode :| mode in todo;
        var share := ShareOf(f, worker, mode, maxShards);
        reserved, done := reserved[mode := share], done[mode := 0];
        todo := todo - {mode};
      }
      mine := Reservation.Reservation(reserved, done);
      ReservationIs(f, worker, maxShards, mine);
    }

    static lemma ReservationIs(f: Frozen, worker: Worker, maxShards: pos, mine: Reservation)
      requires worker !in f.reservations && mine.reserved.Keys == mine.done.Keys == f.targets.Keys - {0}
      requires forall m | m in mine.reserved :: mine.reserved[m] == Steps.Share(f, worker, m, maxShards) && mine.done[m] == 0
      ensures mine == Steps.ReservationOf(f, worker, maxShards)
    {
      hide Steps.Share;
      var goal := Steps.ReservationOf(f, worker, maxShards);
      assert goal.reserved.Keys == mine.reserved.Keys && goal.done.Keys == mine.done.Keys;
      assert forall m | m in goal.reserved :: mine.reserved[m] == goal.reserved[m];
      assert mine.reserved == goal.reserved && mine.done == goal.done;
    }

    method RaiseCounts(counts: map<Mode, nat>, reported: map<Mode, nat>) returns (raised: map<Mode, nat>)
      ensures raised == Steps.Raised(counts, reported)
    {
      hide Steps.Raised;
      raised := counts;
      var todo := reported.Keys;
      while todo != {}
        invariant todo <= reported.Keys && raised.Keys == counts.Keys + (reported.Keys - todo)
        invariant forall m | m in raised && m in todo :: m in counts && raised[m] == counts[m]
        invariant forall m | m in raised && m !in todo :: raised[m] == Max(Get(counts, m, 0), Get(reported, m, 0))
        decreases todo
      {
        EmptyOrHas(todo);
        var mode :| mode in todo;
        var count := if mode in raised then raised[mode] else 0;
        raised, todo := raised[mode := Max(count, reported[mode])], todo - {mode};
      }
      RaisedIs(counts, reported, raised);
    }

    static lemma RaisedIs(counts: map<Mode, nat>, reported: map<Mode, nat>, raised: map<Mode, nat>)
      requires raised.Keys == counts.Keys + reported.Keys
      requires forall m | m in raised :: raised[m] == Max(Get(counts, m, 0), Get(reported, m, 0))
      ensures raised == Steps.Raised(counts, reported)
    {
      var goal := Steps.Raised(counts, reported);
      assert goal.Keys == raised.Keys;
      assert forall m | m in raised :: raised[m] == goal[m];
    }

    method ReserveModes(r: Request, key: ClaimKey, counts: map<Mode, int>, targets: map<Mode, int>) returns (reply: Reply)
      requires key in board.claims
      modifies this`board
      ensures (View(), reply) == Steps.ReserveStep(old(View()), r, key, counts, targets)
    {
      hide Steps.Outstanding, Steps.Share;
      if !board.claims[key].specialOnly { return Targets(targets); }
      if !Steps.ValidReport(counts, targets) { return Refused; }
      var quota := Get(board.quotas, key.slug, NO_QUOTA);
      // the first successful reservation fixes the targets of the game
      var frozen := if quota.frozen.Some? then quota.frozen.value else Frozen.Frozen(map[], Steps.Clamped(targets), map[]);
      if frozen.targets != Steps.Clamped(targets) { return Refused; }
      var raised := RaiseCounts(frozen.counts, Steps.Clamped(counts));
      frozen := frozen.(counts := raised);
      var mine;
      if r.worker in frozen.reservations {
        mine := frozen.reservations[r.worker];
      } else {
        mine := NewReservation(frozen, r.worker, topology.maxShards);
      }
      frozen := frozen.(reservations := frozen.reservations[r.worker := mine]);
      quota := quota.(frozen := Some(frozen), specialComplete := Steps.AllMet(frozen));
      board := board.(quotas := board.quotas[key.slug := quota]);
      return Targets(Steps.LocalTargets(counts, targets, mine));
    }

    // ----- rounds -----

    method AppendBatch(r: Request, slug: Slug, docs: seq<Doc>) returns (reply: Reply)
      modifies this`board, this`disk
      ensures (View(), reply) == Steps.AppendStep(old(View()), r, slug, docs)
    {
      hide Steps.Known, Steps.Touch, Steps.StoreRounds, Steps.Commit, Steps.CreditQuota, Steps.Fresh;
      if !Steps.ValidBatch(slug, docs) { return Refused; }
      var known := HashesOf(slug);
      var added := FreshRounds(docs, known);
      if added == [] { return Written(0, |docs|); }
      StoreRounds(slug, added);
      // a quota record nobody has reserved from has no counts: the update fails after the write
      if Steps.LacksCounts(board.quotas, slug) { return Refused; }
      if slug in board.quotas && board.quotas[slug].frozen.Some? { CreditRounds(r.worker, slug, added); }
      if daemon { CommitRounds(slug, |added|); }
      return Written(|added|, Max(0, |docs| - |added|));
    }

    /** The daemon syncs a file once a whole group of its rounds is pending, and keeps track of every line that is not. */
    method CommitRounds(slug: Slug, count: nat)
      modifies this`disk
      ensures disk == Steps.Commit(old(disk), slug, count)
      ensures Get(disk.unsynced, slug, 0) < DATA_FSYNC_EVERY && disk.ndjson == old(disk.ndjson)
      ensures |Get(disk.ndjson, slug, [])| == Get(old(disk.durable), slug, 0) + Get(old(disk.unsynced), slug, 0) + count ==>
        |Get(disk.ndjson, slug, [])| == Get(disk.durable, slug, 0) + Get(disk.unsynced, slug, 0)
    {
      disk := disk.(unsynced := disk.unsynced[slug := Get(disk.unsynced, slug, 0) + count]);
      if disk.unsynced[slug] >= DATA_FSYNC_EVERY { SyncGame(slug); }
    }

    method FreshRounds(docs: seq<Doc>, known: set<Hash>) returns (added: seq<Doc>)
      ensures added == Steps.Fresh(docs, known)
    {
      added := [];
      var seen: set<Hash> := {};
      var i := 0;
      assert docs[0..] == docs && known + {} == known;
      while i < |docs|
        invariant 0 <= i <= |docs|
        invariant added + Steps.Fresh(docs[i..], known + seen) == Steps.Fresh(docs, known)
      {
        var hash := docs[i].hash;
        assert docs[i..][0] == docs[i] && docs[i..][1..] == docs[i + 1..];
        if hash !in known && hash !in seen {
          assert known + seen + {hash} == known + (seen + {hash});
          seen := seen + {hash};
          added := added + [docs[i]];
        }
        i := i + 1;
      }
    }

    method StoreRounds(slug: Slug, added: seq<Doc>)
      modifies this`disk
      ensures disk == Steps.StoreRounds(old(disk), slug, added, daemon)
    {
      disk := disk.(ndjson := disk.ndjson[slug := Get(disk.ndjson, slug, []) + Steps.LinesOf(added)]);
      if !daemon { disk := disk.(durable := disk.durable[slug := |disk.ndjson[slug]|]); }
      disk := disk.(index := disk.index[slug := Get(disk.index, slug, []) + Steps.HashesOf(added)]);
      if daemon {
        var hashes := Steps.HashesOf(added);
        disk := disk.(cache := disk.cache[slug := Get(disk.cache, slug, {}) + set h | h in hashes]);
      }
    }

    method CreditRounds(worker: Worker, slug: Slug, added: seq<Doc>)
      requires slug in board.quotas && board.quotas[slug].frozen.Some?
      modifies this`board
      ensures board ==
        old(board).(quotas := old(board.quotas)[slug := Steps.CreditQuota(old(board.quotas)[slug], worker, added)])
    {
      var frozen := board.quotas[slug].frozen.value;
      var i := 0;
      assert added[0..] == added;
      while i < |added|
        invariant 0 <= i <= |added|
        invariant Steps.Credit(frozen, worker, added[i..])
               == Steps.Credit(old(board.quotas)[slug].frozen.value, worker, added)
      {
        assert added[i..][0] == added[i] && added[i..][1..] == added[i + 1..];
        frozen := Steps.CreditOne(frozen, worker, added[i].buy);
        i := i + 1;
      }
      var quota := board.quotas[slug].(frozen := Some(frozen), specialComplete := Steps.AllMet(frozen));
      board := board.(quotas := board.quotas[slug := quota]);
    }

    method Acknowledge(slug: Slug, hash: Hash) returns (reply: Reply)
      modifies this`disk
      ensures (View(), reply) == Steps.AckStep(old(View()), slug, hash)
    {
      var known := HashesOf(slug);
      if hash !in known { return Refused; }
      disk := disk.(committed := disk.committed[slug := hash]);
      return Empty;
    }

    method Done(r: Request, key: ClaimKey, status: Status) returns (reply: Reply)
      requires key in board.claims
      modifies this`board, this`disk
      ensures (View(), reply) == Steps.DoneStep(old(View()), r, key, status)
    {
      SyncGame(key.slug);
      var claim := board.claims[key];
      var finished := claim.(status := status);
      if status == Retryable {
        finished := finished.(retryAt := r.now + TRANSIENT_RETRY_MS, retryCount := claim.retryCount + 1);
      }
      board := board.(claims := board.claims[key := finished]);
      ghost var quotas := board.quotas;
      if claim.specialOnly {
        var quota := Get(board.quotas, key.slug, NO_QUOTA);
        if status == Unavailable {
          var nodes := quota.unavailableNodes + {if claim.node.Some? then claim.node.value else r.node};
          quota := quota.(unavailableNodes := nodes, unavailable := |nodes| >= topology.maxShards);
        }
        board := board.(quotas := board.quotas[key.slug := quota]);
        ReleaseModeReservation(r.worker, key.slug);
        assert board.quotas == quotas[key.slug := Steps.Drop(quota, {r.worker})];
      }
      return Empty;
    }

    // ----- requests -----

    method RequestPermit(r: Request, slug: Slug, key: RequestKey, full: bool) returns (reply: Reply)
      modifies this`gate, this`journals
      ensures (View(), reply) == Steps.PermitStep(old(View()), r, slug, key, full)
    {
      hide Steps.Enqueue, Steps.Dequeue;
      var node := if topology.sharedEgress then LOCAL_EGRESS else r.node;
      if full && (slug, key) in journals {
        var previous := journals[(slug, key)];
        // only a confirmed success is replayed; an unknown outcome is never sent again
        if previous.Replayable() { return Cached(previous.response.value); }
        if previous.response.None? { return Refused; }
      }
      if deadline <= r.now { return Stop; }
      if r.now < gate.until {
        return if deadline <= gate.until then Stop else Wait(Min(30_000, gate.until - r.now));
      }
      gate := gate.(waiters := Steps.Enqueue(gate.waiters, key, node, r.now));
      if |gate.permits| >= topology.maxInFlight { return Wait(50); }
      var ready := Get(gate.nodeUntil, node, 0);
      if r.now < ready { return Wait(Max(20, ready - r.now)); }
      gate := gate.(permits := gate.permits[key := Permit.Permit(slug, r.worker, node, r.now)]);
      gate := gate.(waiters := Steps.Dequeue(gate.waiters, key));
      gate := gate.(nodeUntil := gate.nodeUntil[node := Max(ready, r.now + topology.nodeMs)]);
      if full { journals := journals[(slug, key) := Entry.Entry(None, false)]; }
      return Granted;
    }

    /** The reaction to a 429: back off, note the thread, pause everyone or halt the node at the thresholds. */
    method Throttle(node: Node, worker: Worker, now: int, wait: int)
      modifies this`gate, this`board
      ensures gate == Steps.Throttled(old(gate), topology, node, worker, now, wait) && node in gate.nodeThrottle
      ensures board == if |gate.nodeThrottle[node]| >= topology.throttleLimit then Steps.ReleaseNode(old(board), node)
                       else old(board)
    {
      hide Steps.ReleaseNode, Steps.Throttled;
      NoteThrottle(node, worker, now, wait);
      if |gate.nodeThrottle[node]| >= topology.throttleLimit { ReleaseNode(node); }
    }

    method NoteThrottle(node: Node, worker: Worker, now: int, wait: int)
      modifies this`gate
      ensures gate == Steps.Throttled(old(gate), topology, node, worker, now, wait) && node in gate.nodeThrottle
    {
      gate := gate.(nodeUntil := gate.nodeUntil[node := Max(Get(gate.nodeUntil, node, 0), now + wait)]);
      var threads := Get(gate.nodeThrottle, node, []);
      if worker !in threads { threads := threads + [worker]; }
      gate := gate.(nodeThrottle := gate.nodeThrottle[node := threads]);
      gate := gate.(rateNodes := Steps.Window(gate.rateNodes, now) + [Hit.Hit(node, now)]);
      if |Steps.NodesOf(gate.rateNodes)| >= Steps.PauseThreshold(topology) {
        gate := gate.(until := Max(gate.until, now + wait));
      }
      if topology.sharedEgress { gate := gate.(until := Max(gate.until, now + wait)); }
      if |threads| >= topology.throttleLimit { gate := gate.(halted := gate.halted + {node}); }
    }

    static lemma ResponseParts(s: State, r: Request, slug: Slug, key: RequestKey, outcome: Outcome, usable: Option<bool>,
                               retryAfter: RetryAfter)
      ensures !Steps.Settles(s, r, slug, key) ==>
        Steps.ResponseStep(s, r, slug, key, outcome, usable, retryAfter) == (s, Refused)
      ensures Steps.Settles(s, r, slug, key) ==>
        var node := if s.topology.sharedEgress then LOCAL_EGRESS else r.node;
        var settled := s.gate.(permits := s.gate.permits - {key});
        var wait := Max(MINIMUM_BACKOFF_MS, RetryAfterMs(retryAfter, r.now));
        var limited := Steps.StatusOf(outcome) == 429;
        var gate := if limited then Steps.Throttled(settled, s.topology, node, r.worker, r.now, wait) else settled;
        var journal := if outcome.Compact? then s.journal
                       else s.journal[(slug, key) := Entry.Entry(outcome.response, Steps.UsableOf(outcome, usable))];
        var board := if limited && node in gate.nodeThrottle && |gate.nodeThrottle[node]| >= s.topology.throttleLimit
                     then Steps.ReleaseNode(s.board, node) else s.board;
        Steps.ResponseStep(s, r, slug, key, outcome, usable, retryAfter)
        == (s.(gate := gate, journal := journal, responses := s.responses + 1, board := board),
            Recorded(gate.until, Get(gate.nodeUntil, node, 0), node in gate.halted || s.overloaded))
    {
    }

    /** The permit is given back and, for a full request, the answer is kept. */
    method Settle(slug: Slug, key: RequestKey, outcome: Outcome, usable: Option<bool>)
      modifies this`gate, this`journals, this`responses
      ensures gate == old(gate).(permits := old(gate.permits) - {key}) && responses == old(responses) + 1
      ensures journals == if outcome.Compact? then old(journals)
        else old(journals)[(slug, key) := Entry.Entry(outcome.response, Steps.UsableOf(outcome, usable))]
      ensures key !in gate.permits
      ensures outcome.Full? ==>
        (journals[(slug, key)].Replayable()
         <==> outcome.response.Some? && 200 <= outcome.response.value.status < 300 && usable != Some(false))
    {
      gate := gate.(permits := gate.permits - {key});
      if outcome.Full? {
        journals := journals[(slug, key) := Entry.Entry(outcome.response, Steps.UsableOf(outcome, usable))];
      }
      responses := responses + 1;
    }

    method Respond(r: Request, slug: Slug, key: RequestKey, outcome: Outcome, usable: Option<bool>, retryAfter: RetryAfter)
      returns (reply: Reply)
      modifies this`gate, this`board, this`journals, this`responses
      ensures (View(), reply) == Steps.ResponseStep(old(View()), r, slug, key, outcome, usable, retryAfter)
    {
      hide Steps.ResponseStep, Steps.ReleaseNode, Steps.Throttled, Steps.UsableOf, Steps.StatusOf, RetryAfterMs, Max;
      ghost var s := View();
      ResponseParts(s, r, slug, key, outcome, usable, retryAfter);
      if key !in gate.permits || gate.permits[key].slug != slug || gate.permits[key].worker != r.worker { return Refused; }
      var node := if topology.sharedEgress then LOCAL_EGRESS else r.node;
      Settle(slug, key, outcome, usable);
      if Steps.StatusOf(outcome) == 429 {
        var wait := Max(MINIMUM_BACKOFF_MS, RetryAfterMs(retryAfter, r.now));
        Throttle(node, r.worker, r.now, wait);
      }
      return Recorded(gate.until, Get(gate.nodeUntil, node, 0), node in gate.halted || serverHalt);
    }

    // ----- runs -----

    method Begin(r: Request) returns (reply: Reply)
      requires r.op.Begin?
      modifies this
      ensures (View(), reply) == Steps.BeginStep(old(View()), r)
    {
      hide Steps.StartRun;
      var wasOwner, wasGate := owner, gate;
      if owner.Some? {
        if !r.op.attemptCompleted { return Refused; }
        owner, gate := None, gate.(permits := map[]);
      }
      if r.op.handoff.None? {
        if !daemon { owner, gate := wasOwner, wasGate; }
        return Refused;
      }
      gate := gate.(until := Max(gate.until, r.op.handoff.value.until));
      if r.op.allowed == Some([]) || (r.op.preferred.Some? && |r.op.preferred.value| > 500) {
        if !daemon { owner, gate := wasOwner, wasGate; }
        return Refused;
      }
      reply := StartRun(r, r.op.handoff.value.slug);
    }

    method StartRun(r: Request, handoff: Option<Slug>) returns (reply: Reply)
      requires r.op.Begin?
      modifies this
      ensures (View(), reply) == Steps.StartRun(old(View()), r, handoff)
    {
      hide Steps.ChosenGames;
      var chosen := Steps.ChosenGames(r.op, if cursor.Some? then cursor else handoff);
      games, modeGames := chosen.0, chosen.1;
      owner, deadline := Some(r.run), r.now + r.op.durationMs;
      topology := r.op.budget.(maxShards := Min(2, r.op.budget.maxShards));
      board, gate := Board(map[], map[]), Gate(gate.until, map[], [], map[], map[], {}, []);
      responses, nextClaimAt, serverHalt := 0, 0, false;
      return Started(deadline, gate.until, |games|);
    }

    /** One request, as the daemon and the one-shot command line handle it. */
    method Execute(r: Request) returns (reply: Reply)
      modifies this
      ensures (View(), reply) == Steps.Step(old(View()), r)
    {
      hide Steps.BeginStep, Steps.ClaimStep, Steps.ReserveStep, Steps.AppendStep, Steps.AckStep, Steps.DoneStep,
        Steps.PermitStep, Steps.ResponseStep;
      if r.op.Overload? {
        if owner.Some? { serverHalt := true; }
        return Empty;
      }
      if r.op.Begin? { reply := Begin(r); return; }
      if owner != Some(r.run) { return Refused; }
      if r.op.End? {
        owner, gate := None, gate.(permits := map[], waiters := []);
        return Empty;
      }
      if r.op.Claims? { reply := ClaimGame(r, r.op.accepted); return; }
      if r.op.Permits? && (r.node in gate.halted || (topology.sharedEgress && LOCAL_EGRESS in gate.halted) || serverHalt) {
        return Halted;
      }
      var key := Steps.WorkerClaim(board.claims, r.worker, Steps.SlugOf(r.op));
      if key.None? { return Refused; }
      match r.op {
        case ReserveModes(_, counts, targets) => reply := ReserveModes(r, key.value, counts, targets);
        case Append(slug, docs) => reply := AppendBatch(r, slug, docs);
        case Ack(slug, hash) => reply := Acknowledge(slug, hash);
        case Done(_, status) => reply := Done(r, key.value, status);
        case Permits(slug, requestKey, full) =>
          if !IsHash(requestKey) { return Refused; }
          reply := RequestPermit(r, slug, requestKey, full);
        case Response(slug, requestKey, outcome, usable, retryAfter) =>
          if !IsHash(requestKey) { return Refused; }
          reply := Respond(r, slug, requestKey, outcome, usable, retryAfter);
        case _ => return Refused;
      }
    }

    /** Any sequence of requests drives the object through a behaviour of the model. */
    method ExecuteAll(rs: seq<Request>) returns (ghost states: seq<State>, replies: seq<Reply>)
      modifies this
      ensures Steps.Behavior(states, rs) && states[0] == old(View()) && states[|rs|] == View()
      ensures |replies| == |rs| && forall i {:trigger rs[i]} | 0 <= i < |rs| :: replies[i] == Steps.Step(states[i], rs[i]).1
    {
      hide Steps.Step;
      states, replies := [View()], [];
      var i := 0;
      while i < |rs|
        invariant 0 <= i <= |rs| && |states| == i + 1 && |replies| == i
        invariant states[0] == old(View()) && states[i] == View()
        invariant forall j {:trigger rs[j]} | 0 <= j < i ::
          states[j + 1] == Steps.Step(states[j], rs[j]).0 && replies[j] == Steps.Step(states[j], rs[j]).1
      {
        var reply := Execute(rs[i]);
        states, replies := states + [View()], replies + [reply];
        i := i + 1;
      }
    }
  }
}
