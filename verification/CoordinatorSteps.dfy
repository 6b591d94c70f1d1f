/**
 What each coordinator operation does to the shared state, as functions on values. `Store` implements
 these in place; the other coordinator modules prove what they guarantee over whole runs.
 */
module CoordinatorSteps {
  import opened Base
  import opened CoordinatorTypes

  // ----- leases -----

  ghost function RunningKeys(claims: map<ClaimKey, Claim>): set<ClaimKey> {
    set k | k in claims && claims[k].status == Running
  }

  ghost function RunningOn(claims: map<ClaimKey, Claim>, node: Node): set<ClaimKey> {
    set k | k in claims && claims[k].status == Running && claims[k].node == Some(node)
  }

  ghost function NormalRunning(claims: map<ClaimKey, Claim>): set<ClaimKey> {
    set k | k in claims && claims[k].status == Running && !claims[k].specialOnly
  }

  ghost function BusyNodes(claims: map<ClaimKey, Claim>): set<Option<Node>> {
    set k | k in claims && claims[k].status == Running :: claims[k].node
  }

  /** The lease under which a worker may act on a game; the first shard's entry is always the older one. */
  function WorkerClaim(claims: map<ClaimKey, Claim>, worker: Worker, slug: Slug): Option<ClaimKey> {
    if Primary(slug) in claims && claims[Primary(slug)].worker == Some(worker) then Some(Primary(slug))
    else if Secondary(slug) in claims && claims[Secondary(slug)].worker == Some(worker) then Some(Secondary(slug))
    else None
  }

  predicate RunningAt(claims: map<ClaimKey, Claim>, key: ClaimKey) {
    key in claims && claims[key].status == Running
  }

  /** The games the first pass over the purchase games leaves alone. */
  predicate SkipsPrimary(b: Board, slug: Slug, now: int) {
    var quota := Get(b.quotas, slug, NO_QUOTA);
    || quota.specialComplete || quota.unavailable
    || (Primary(slug) in b.claims &&
        (|| !Reclaimable(b.claims[Primary(slug)], now)
         || (b.claims[Primary(slug)].status == ShardComplete && RunningAt(b.claims, Secondary(slug)))))
  }

  function AcceptSpecial(b: Board, slug: Slug): Board {
    Board(b.claims[Primary(slug) := ACCEPTED_CLAIM], b.quotas[slug := ACCEPTED_QUOTA])
  }

  function AcceptNormal(b: Board, slug: Slug): Board {
    b.(claims := b.claims[Primary(slug) := ACCEPTED_CLAIM])
  }

  ghost function PickPrimary(b: Board, slugs: seq<Slug>, accepted: set<Slug>, now: int): (Board, Option<Slug>)
    decreases slugs
  {
    if slugs == [] then (b, None)
    else if SkipsPrimary(b, slugs[0], now) then PickPrimary(b, slugs[1..], accepted, now)
    else if slugs[0] in accepted then PickPrimary(AcceptSpecial(b, slugs[0]), slugs[1..], accepted, now)
    else (b, Some(slugs[0]))
  }

  predicate TakesSecondary(b: Board, slug: Slug, node: Node, now: int) {
    var quota := Get(b.quotas, slug, NO_QUOTA);
    && !quota.specialComplete && !quota.unavailable
    && Primary(slug) in b.claims
    && b.claims[Primary(slug)].status in {Running, Unavailable}
    && b.claims[Primary(slug)].node != Some(node)
    && (Secondary(slug) in b.claims ==> Reclaimable(b.claims[Secondary(slug)], now))
  }

  ghost function PickSecondary(b: Board, slugs: seq<Slug>, node: Node, now: int): Option<Slug> {
    if slugs == [] then None
    else if TakesSecondary(b, slugs[0], node, now) then Some(slugs[0])
    else PickSecondary(b, slugs[1..], node, now)
  }

  predicate Unresolved(b: Board, slug: Slug) {
    var quota := Get(b.quotas, slug, NO_QUOTA);
    && !quota.specialComplete && !quota.unavailable
    && !(Primary(slug) in b.claims && b.claims[Primary(slug)].status == Failed)
    && !(Secondary(slug) in b.claims && b.claims[Secondary(slug)].status == Failed)
  }

  function CountUnresolved(b: Board, slugs: seq<Slug>): nat {
    if slugs == [] then 0
    else (if Unresolved(b, slugs[0]) then 1 else 0) + CountUnresolved(b, slugs[1..])
  }

  predicate SpecialRunning(claims: map<ClaimKey, Claim>, key: ClaimKey) {
    RunningAt(claims, key) && claims[key].specialOnly
  }

  predicate SkipsNormal(b: Board, slug: Slug, modeGames: seq<Slug>, now: int) {
    || (slug in modeGames && !Get(b.quotas, slug, NO_QUOTA).specialComplete)
    || SpecialRunning(b.claims, Primary(slug)) || SpecialRunning(b.claims, Secondary(slug))
    || (Primary(slug) in b.claims && !Reclaimable(b.claims[Primary(slug)], now))
  }

  ghost function PickNormal(b: Board, slugs: seq<Slug>, modeGames: seq<Slug>, accepted: set<Slug>, now: int)
    : (Board, Option<Slug>)
    decreases slugs
  {
    if slugs == [] then (b, None)
    else if SkipsNormal(b, slugs[0], modeGames, now) then PickNormal(b, slugs[1..], modeGames, accepted, now)
    else if slugs[0] in accepted then PickNormal(AcceptNormal(b, slugs[0]), slugs[1..], modeGames, accepted, now)
    else (b, Some(slugs[0]))
  }

  /** The game after `slug` in the cyclic order of the run. */
  function NextGame(games: seq<Slug>, slug: Slug): Slug {
    var at := IndexOf(games, slug);
    if at < |games| then games[(at + 1) % |games|] else slug
  }

  /** A purchase lease wants a node to itself, so a grant may have to wait although a seat is free. */
  ghost predicate NodeTaken(claims: map<ClaimKey, Claim>, node: Node, special: bool) {
    exists k | k in RunningOn(claims, node) :: special || claims[k].specialOnly
  }

  /** A normal lease first spreads over idle nodes, for at most two minutes. */
  ghost predicate SpreadsFirst(claims: map<ClaimKey, Claim>, t: Topology, node: Node, now: int) {
    && |BusyNodes(claims)| < t.nodes
    && exists k | k in RunningOn(claims, node) :: now - claims[k].claimedAt < CLAIM_WAIT_MAX_MS * 4
  }

  function NewClaim(r: Request, special: bool, shard: nat): Claim {
    Claim(Running, Some(r.worker), Some(r.node), special, shard, r.now, 0, 0)
  }

  ghost function Grant(s: State, r: Request, key: ClaimKey, special: bool, shard: nat): (State, Reply) {
    if s.topology.fillIdleNormal && NodeTaken(s.board.claims, r.node, special) then (s, Backoff)
    else if s.topology.fillIdleNormal && !special && SpreadsFirst(s.board.claims, s.topology, r.node, r.now) then
      (s, Backoff)
    else
      (s.(board := s.board.(claims := s.board.claims[key := NewClaim(r, special, shard)]),
          cursor := if shard != 2 then Some(NextGame(s.games, key.slug)) else s.cursor,
          nextClaimAt := r.now + s.topology.claimStartSpacingMs,
          disk := Touch(s.disk, key.slug, s.daemon)),
       Lease(key.slug, special, shard))
  }

  /** The three passes of a claim, once the caps and the pauses have let it through. */
  ghost function Schedule(s: State, r: Request, accepted: set<Slug>): (State, Reply) {
    var (b1, primary) := PickPrimary(s.board, s.modeGames, accepted, r.now);
    var s1 := s.(board := b1);
    if primary.Some? then Grant(s1, r, Primary(primary.value), true, 1) else
    var secondary := if s.topology.maxShards < 2 then None else PickSecondary(b1, s.modeGames, r.node, r.now);
    if secondary.Some? then Grant(s1, r, Secondary(secondary.value), true, 2) else
    var waiting := CountUnresolved(b1, s.modeGames);
    if waiting > 0 && (!s.topology.fillIdleNormal
                       || |NormalRunning(s.board.claims)| >= Max(0, s.topology.maxClaims - waiting)) then
      (s1, Backoff)
    else
      var (b2, normal) := PickNormal(b1, s.games, s.modeGames, accepted, r.now);
      var s2 := s.(board := b2);
      if normal.Some? then Grant(s2, r, Primary(normal.value), false, 0)
      else (s2, if RunningKeys(b2.claims) != {} then Backoff else Stop)
  }

  predicate Egress(s: State, node: Node) {
    node in s.gate.halted || (s.topology.sharedEgress && LOCAL_EGRESS in s.gate.halted)
  }

  ghost function ClaimStep(s: State, r: Request, accepted: set<Slug>): (State, Reply) {
    if Egress(s, r.node) || s.overloaded then (s, Halted)
    else if s.deadline <= r.now || s.deadline <= s.gate.until then (s, Stop)
    else if r.now < s.gate.until then (s, Wait(Min(30_000, s.gate.until - r.now)))
    else if |RunningKeys(s.board.claims)| >= s.topology.maxClaims then (s, Backoff)
    else if |RunningOn(s.board.claims, r.node)| >= PerNode(s.topology) then (s, Backoff)
    else if r.now < s.nextClaimAt then (s, Wait(Min(15_000, s.nextClaimAt - r.now)))
    else Schedule(s, r, accepted)
  }

  // ----- mode quotas -----

  /** What one reservation of a mode still has to deliver. */
  function Owed(r: Reservation, mode: Mode): nat {
    var share: int, done: int := Get(r.reserved, mode, 0), Get(r.done, mode, 0);
    Max(0, share - done)
  }

  ghost function Outstanding(rs: map<Worker, Reservation>, mode: Mode): nat {
    if rs == map[] then 0
    else
      var w :| w in rs;
      Owed(rs[w], mode) + Outstanding(rs - {w}, mode)
  }

  function Owners(rs: map<Worker, Reservation>, mode: Mode): set<Worker> {
    set w | w in rs && mode in rs[w].reserved
  }

  predicate AllMet(f: Frozen) {
    forall m | m in f.targets && m != 0 :: f.targets[m] <= Get(f.counts, m, 0)
  }

  function Clamped(m: map<Mode, int>): map<Mode, nat> {
    map k | k in m :: Max(0, m[k])
  }

  function Raised(counts: map<Mode, nat>, reported: map<Mode, nat>): map<Mode, nat> {
    map k | k in counts.Keys + reported.Keys :: Max(Get(counts, k, 0), Get(reported, k, 0))
  }

  /** An even split of what nobody else has reserved over the shards that have not reserved yet. */
  ghost function Share(f: Frozen, worker: Worker, mode: Mode, maxShards: pos): nat
    requires mode in f.targets
  {
    var others := f.reservations - {worker};
    var remaining := Max(0, f.targets[mode] - Get(f.counts, mode, 0) - Outstanding(others, mode));
    CeilDiv(remaining, Max(1, maxShards - |Owners(others, mode)|))
  }

  ghost function ReservationOf(f: Frozen, worker: Worker, maxShards: pos): Reservation {
    if worker in f.reservations then f.reservations[worker]
    else
      Reservation(map m | m in f.targets && m != 0 :: Share(f, worker, m, maxShards),
                  map m | m in f.targets && m != 0 :: 0)
  }

  predicate ValidReport(counts: map<Mode, int>, targets: map<Mode, int>) {
    targets != map[] && counts.Keys <= targets.Keys && forall m | m in targets :: 0 <= m
  }

  /** The frozen record once a worker's report has been taken in. */
  ghost function Reported(q: Quota, counts: map<Mode, int>, targets: map<Mode, int>): Frozen {
    var f := if q.frozen.Some? then q.frozen.value else Frozen(map[], Clamped(targets), map[]);
    f.(counts := Raised(f.counts, Clamped(counts)))
  }

  ghost function Reserved(q: Quota, worker: Worker, counts: map<Mode, int>, targets: map<Mode, int>, maxShards: pos)
    : Quota
  {
    var f := Reported(q, counts, targets);
    var f' := f.(reservations := f.reservations[worker := ReservationOf(f, worker, maxShards)]);
    q.(frozen := Some(f'), specialComplete := AllMet(f'))
  }

  /** The targets a worker is told: its own count plus its reservation, mode by mode. */
  function LocalTargets(counts: map<Mode, int>, targets: map<Mode, int>, mine: Reservation): map<Mode, int> {
    map m | m in counts.Keys + targets.Keys :: Get(Clamped(counts), m, 0) + Get(mine.reserved, m, 0)
  }

  ghost function ReserveStep(s: State, r: Request, key: ClaimKey, counts: map<Mode, int>, targets: map<Mode, int>)
    : (State, Reply)
    requires key in s.board.claims
  {
    if !s.board.claims[key].specialOnly then (s, Targets(targets))
    else if !ValidReport(counts, targets) then (s, Refused)
    else
      var q := Get(s.board.quotas, key.slug, NO_QUOTA);
      if q.frozen.Some? && q.frozen.value.targets != Clamped(targets) then (s, Refused)
      else
        var q' := Reserved(q, r.worker, counts, targets, s.topology.maxShards);
        (s.(board := s.board.(quotas := s.board.quotas[key.slug := q'])),
         Targets(LocalTargets(counts, targets, q'.frozen.value.reservations[r.worker])))
  }

  function Drop(q: Quota, workers: set<Worker>): Quota {
    if q.frozen.None? then q
    else q.(frozen := Some(q.frozen.value.(reservations := q.frozen.value.reservations - workers)))
  }

  /** Count one stored round of a mode, against the reservation of the worker that stored it. */
  function CreditOne(f: Frozen, worker: Worker, mode: Mode): Frozen {
    var f' := f.(counts := f.counts[mode := Get(f.counts, mode, 0) + 1]);
    if worker !in f.reservations then f'
    else
      var mine := f.reservations[worker];
      f'.(reservations := f.reservations[worker := mine.(done := mine.done[mode := Get(mine.done, mode, 0) + 1])])
  }

  ghost function Credit(f: Frozen, worker: Worker, docs: seq<Doc>): Frozen
    decreases docs
  {
    if docs == [] then f else Credit(CreditOne(f, worker, docs[0].buy), worker, docs[1..])
  }

  // ----- round files -----

  ghost function Hashes(lines: seq<Line>): set<Hash> {
    set i | 0 <= i < |lines| && lines[i].Round? :: lines[i].hash
  }

  function Seeded(lines: seq<Line>): seq<Hash> {
    if lines == [] then [] else (if lines[0].Round? then [lines[0].hash] else []) + Seeded(lines[1..])
  }

  ghost function Known(d: Disk, slug: Slug, daemon: bool): set<Hash> {
    if daemon && slug in d.cache then d.cache[slug]
    else
      var index := if slug in d.index then d.index[slug] else Seeded(Get(d.ndjson, slug, []));
      set h | h in index
  }

  /** Looking the hashes up seeds a missing index and, in the daemon, the cache. */
  ghost function Touch(d: Disk, slug: Slug, daemon: bool): Disk {
    if daemon && slug in d.cache then d
    else
      d.(index := if slug in d.index then d.index else d.index[slug := Seeded(Get(d.ndjson, slug, []))],
         cache := if daemon then d.cache[slug := Known(d, slug, daemon)] else d.cache)
  }

  ghost function Fresh(docs: seq<Doc>, known: set<Hash>): seq<Doc> {
    if docs == [] then []
    else if docs[0].hash in known then Fresh(docs[1..], known)
    else [docs[0]] + Fresh(docs[1..], known + {docs[0].hash})
  }

  function LinesOf(docs: seq<Doc>): seq<Line> {
    seq(|docs|, i requires 0 <= i < |docs| => Round(docs[i].hash, docs[i].buy))
  }

  function HashesOf(docs: seq<Doc>): seq<Hash> {
    seq(|docs|, i requires 0 <= i < |docs| => docs[i].hash)
  }

  /** Append fresh rounds to the file, its index and the cache; without a daemon the file is synced at once. */
  ghost function StoreRounds(d: Disk, slug: Slug, added: seq<Doc>, daemon: bool): Disk {
    var lines := Get(d.ndjson, slug, []) + LinesOf(added);
    d.(ndjson := d.ndjson[slug := lines],
       index := d.index[slug := Get(d.index, slug, []) + HashesOf(added)],
       cache := if daemon then d.cache[slug := Get(d.cache, slug, {}) + (set h | h in HashesOf(added))] else d.cache,
       durable := if daemon then d.durable else d.durable[slug := |lines|])
  }

  function SyncGame(d: Disk, slug: Slug): Disk {
    if Get(d.unsynced, slug, 0) == 0 then d
    else d.(durable := d.durable[slug := |Get(d.ndjson, slug, [])|], unsynced := d.unsynced - {slug})
  }

  /** Count stored rounds towards the next group sync of the daemon. */
  function Commit(d: Disk, slug: Slug, count: nat): Disk {
    var d' := d.(unsynced := d.unsynced[slug := Get(d.unsynced, slug, 0) + count]);
    if d'.unsynced[slug] >= DATA_FSYNC_EVERY then SyncGame(d', slug) else d'
  }

  predicate ValidBatch(slug: Slug, docs: seq<Doc>) {
    1 <= |docs| <= DATA_FSYNC_EVERY && forall i | 0 <= i < |docs| :: docs[i].game == slug && IsHash(docs[i].hash)
  }

  /** A non-empty quota record that no reservation has frozen has no counts to add to. */
  predicate LacksCounts(quotas: map<Slug, Quota>, slug: Slug) {
    slug in quotas && quotas[slug].Truthy() && quotas[slug].frozen.None?
  }

  ghost function CreditQuota(q: Quota, worker: Worker, added: seq<Doc>): Quota
    requires q.frozen.Some?
  {
    var f := Credit(q.frozen.value, worker, added);
    q.(frozen := Some(f), specialComplete := AllMet(f))
  }

  ghost function AppendStep(s: State, r: Request, slug: Slug, docs: seq<Doc>): (State, Reply) {
    if !ValidBatch(slug, docs) then (s, Refused)
    else
      var added := Fresh(docs, Known(s.disk, slug, s.daemon));
      var touched := Touch(s.disk, slug, s.daemon);
      if added == [] then (s.(disk := touched), Written(0, |docs|))
      else
        var stored := StoreRounds(touched, slug, added, s.daemon);
        if LacksCounts(s.board.quotas, slug) then (s.(disk := stored), Refused)
        else
          var quotas := s.board.quotas;
          var credited :=
            if slug in quotas && quotas[slug].frozen.Some? then quotas[slug := CreditQuota(quotas[slug], r.worker, added)]
            else quotas;
          (s.(disk := if s.daemon then Commit(stored, slug, |added|) else stored,
              board := s.board.(quotas := credited)),
           Written(|added|, Max(0, |docs| - |added|)))
  }

  ghost function AckStep(s: State, slug: Slug, hash: Hash): (State, Reply) {
    var touched := Touch(s.disk, slug, s.daemon);
    if hash !in Known(s.disk, slug, s.daemon) then (s.(disk := touched), Refused)
    else (s.(disk := touched.(committed := touched.committed[slug := hash])), Empty)
  }

  // ----- giving a lease back -----

  function Finished(c: Claim, status: Status, now: int): Claim {
    if status == Retryable then
      c.(status := status, retryAt := now + TRANSIENT_RETRY_MS, retryCount := c.retryCount + 1)
    else c.(status := status)
  }

  ghost function AfterSpecial(q: Quota, c: Claim, r: Request, status: Status, maxShards: pos): Quota {
    var nodes := q.unavailableNodes + {if c.node.Some? then c.node.value else r.node};
    var q' := if status == Unavailable then q.(unavailableNodes := nodes, unavailable := |nodes| >= maxShards) else q;
    Drop(q', {r.worker})
  }

  ghost function DoneStep(s: State, r: Request, key: ClaimKey, status: Status): (State, Reply)
    requires key in s.board.claims
  {
    var c := s.board.claims[key];
    var quotas :=
      if c.specialOnly then
        s.board.quotas[key.slug :=
          AfterSpecial(Get(s.board.quotas, key.slug, NO_QUOTA), c, r, status, s.topology.maxShards)]
      else s.board.quotas;
    (s.(board := Board(s.board.claims[key := Finished(c, status, r.now)], quotas),
        disk := SyncGame(s.disk, key.slug)),
     Empty)
  }

  /** A running lease of a worker that belongs to `node`. */
  predicate HeldFrom(c: Claim, node: Node) {
    c.status == Running && NodeOf(if c.worker.Some? then c.worker.value else "") == node
  }

  function Evict(c: Claim, node: Node): Claim {
    if HeldFrom(c, node) then c.(status := Released, worker := Some("")) else c
  }

  function Evicted(claims: map<ClaimKey, Claim>, key: ClaimKey, node: Node): set<Worker> {
    if key in claims && HeldFrom(claims[key], node) then
      {if claims[key].worker.Some? then claims[key].worker.value else ""}
    else {}
  }

  /** The breaker hands back every running lease of a node and its reservations. */
  ghost function ReleaseNode(b: Board, node: Node): Board {
    Board(map k | k in b.claims :: Evict(b.claims[k], node),
          map slug | slug in b.quotas ::
            Drop(b.quotas[slug], Evicted(b.claims, Primary(slug), node) + Evicted(b.claims, Secondary(slug), node)))
  }

  // ----- request permits -----

  function EgressOf(s: State, r: Request): Node {
    if s.topology.sharedEgress then LOCAL_EGRESS else r.node
  }

  function Live(ws: seq<Waiter>, now: int): seq<Waiter> {
    Filter(ws, (w: Waiter) => now - w.seen < WAITER_TTL_MS)
  }

  function WaiterOf(ws: seq<Waiter>, key: RequestKey): (i: nat)
    ensures i <= |ws|
    ensures i < |ws| ==> ws[i].key == key
    ensures forall j | 0 <= j < i :: ws[j].key != key
  {
    if ws == [] || ws[0].key == key then 0 else 1 + WaiterOf(ws[1..], key)
  }

  function Enqueue(ws: seq<Waiter>, key: RequestKey, node: Node, now: int): seq<Waiter> {
    var live := Live(ws, now);
    var at := WaiterOf(live, key);
    if at < |live| then live[at := live[at].(seen := now)] else live + [Waiter(key, node, now)]
  }

  function Dequeue(ws: seq<Waiter>, key: RequestKey): seq<Waiter> {
    var at := WaiterOf(ws, key);
    if at < |ws| then ws[..at] + ws[at + 1..] else ws
  }

  ghost function PermitStep(s: State, r: Request, slug: Slug, key: RequestKey, full: bool): (State, Reply) {
    var node := EgressOf(s, r);
    var previous := if full && (slug, key) in s.journal then Some(s.journal[(slug, key)]) else None;
    if previous.Some? && previous.value.Replayable() then (s, Cached(previous.value.response.value))
    else if previous.Some? && previous.value.response.None? then (s, Refused)
    else if s.deadline <= r.now then (s, Stop)
    else if r.now < s.gate.until then
      (s, if s.deadline <= s.gate.until then Stop else Wait(Min(30_000, s.gate.until - r.now)))
    else
      var queue := Enqueue(s.gate.waiters, key, node, r.now);
      var ready := Get(s.gate.nodeUntil, node, 0);
      if |s.gate.permits| >= s.topology.maxInFlight then (s.(gate := s.gate.(waiters := queue)), Wait(50))
      else if r.now < ready then (s.(gate := s.gate.(waiters := queue)), Wait(Max(20, ready - r.now)))
      else
        (s.(gate := s.gate.(
              permits := s.gate.permits[key := Permit(slug, r.worker, node, r.now)],
              waiters := Dequeue(queue, key),
              nodeUntil := s.gate.nodeUntil[node := Max(ready, r.now + s.topology.nodeMs)]),
            journal := if full then s.journal[(slug, key) := Entry(None, false)] else s.journal),
         Granted)
  }

  function StatusOf(outcome: Outcome): int {
    match outcome
    case Compact(status) => status
    case Full(response) => if response.Some? then response.value.status else 0
  }

  function UsableOf(outcome: Outcome, usable: Option<bool>): bool {
    if usable.Some? then usable.value else 200 <= StatusOf(outcome) < 300
  }

  function NodesOf(hits: seq<Hit>): set<Node> {
    set h | h in hits :: h.node
  }

  function Recent(now: int): Hit -> bool {
    (h: Hit) => now - h.at < GLOBAL_LIMIT_WINDOW_MS
  }

  function Window(hits: seq<Hit>, now: int): seq<Hit> {
    Filter(hits, Recent(now))
  }

  function PauseThreshold(t: Topology): nat {
    Max(GLOBAL_LIMIT_NODES, (t.nodes + 1) / 2)
  }

  function BackoffMs(header: RetryAfter, now: int): int {
    Max(MINIMUM_BACKOFF_MS, RetryAfterMs(header, now))
  }

  /** The reaction to a 429: back the egress off, note the thread, and pause or halt at the thresholds. */
  ghost function Throttled(g: Gate, t: Topology, node: Node, worker: Worker, now: int, wait: int): Gate {
    var noted := Get(g.nodeThrottle, node, []);
    var threads := if worker in noted then noted else noted + [worker];
    var hits := Window(g.rateNodes, now) + [Hit(node, now)];
    var paused := |NodesOf(hits)| >= PauseThreshold(t) || t.sharedEgress;
    g.(nodeUntil := g.nodeUntil[node := Max(Get(g.nodeUntil, node, 0), now + wait)],
       nodeThrottle := g.nodeThrottle[node := threads],
       rateNodes := hits,
       until := if paused then Max(g.until, now + wait) else g.until,
       halted := if |threads| >= t.throttleLimit then g.halted + {node} else g.halted)
  }

  predicate Settles(s: State, r: Request, slug: Slug, key: RequestKey) {
    key in s.gate.permits && s.gate.permits[key].slug == slug && s.gate.permits[key].worker == r.worker
  }

  ghost function ResponseStep(s: State, r: Request, slug: Slug, key: RequestKey, outcome: Outcome,
                              usable: Option<bool>, retryAfter: RetryAfter): (State, Reply)
  {
    if !Settles(s, r, slug, key) then (s, Refused)
    else
      var node := EgressOf(s, r);
      var settled := s.gate.(permits := s.gate.permits - {key});
      var journal :=
        if outcome.Compact? then s.journal
        else s.journal[(slug, key) := Entry(outcome.response, UsableOf(outcome, usable))];
      var gate :=
        if StatusOf(outcome) == 429 then
          Throttled(settled, s.topology, node, r.worker, r.now, BackoffMs(retryAfter, r.now))
        else settled;
      var tripped := StatusOf(outcome) == 429 && |gate.nodeThrottle[node]| >= s.topology.throttleLimit;
      (s.(gate := gate, journal := journal, responses := s.responses + 1,
          board := if tripped then ReleaseNode(s.board, node) else s.board),
       Recorded(gate.until, Get(gate.nodeUntil, node, 0), node in gate.halted || s.overloaded))
  }

  // ----- runs -----

  function SlugsOf(games: seq<Game>): seq<Slug> {
    seq(|games|, i requires 0 <= i < |games| => games[i].slug)
  }

  function Rotated(games: seq<Slug>, cursor: Option<Slug>): seq<Slug> {
    if cursor.Some? && cursor.value in games then
      var at := IndexOf(games, cursor.value);
      games[at..] + games[..at]
    else games
  }

  function Among(listed: seq<Slug>): Slug -> bool {
    (g: Slug) => g in listed
  }

  function NotAmong(listed: seq<Slug>): Slug -> bool {
    (g: Slug) => g !in listed
  }

  /** The games of a run: rotated to the cursor, with the preferred ones first. */
  function RunOrder(games: seq<Slug>, cursor: Option<Slug>, preferred: Option<seq<Slug>>): seq<Slug> {
    var rotated := Rotated(games, cursor);
    if preferred.None? then rotated
    else Filter(rotated, Among(preferred.value)) + Filter(rotated, NotAmong(preferred.value))
  }

  /** The games of a run in their order, and those of them that can be collected by purchase. */
  function ChosenGames(op: Op, cursor: Option<Slug>): (seq<Slug>, seq<Slug>)
    requires op.Begin?
  {
    var active := if op.allowed.None? then op.active else Filter(op.active, (g: Game) => g.slug in op.allowed.value);
    var modes := SlugsOf(Filter(active, (g: Game) => g.modes));
    var games := RunOrder(SlugsOf(active), cursor, op.preferred);
    (games, Filter(games, (g: Slug) => g in modes))
  }

  /** A fresh run: only the shared pause, the cursor, the files and the journal outlive the one before. */
  ghost function StartRun(s: State, r: Request, handoff: Option<Slug>): (State, Reply)
    requires r.op.Begin?
  {
    var (games, modeGames) := ChosenGames(r.op, if s.cursor.Some? then s.cursor else handoff);
    var deadline := r.now + r.op.durationMs;
    var budget := r.op.budget.(maxShards := Min(2, r.op.budget.maxShards));
    (State(s.daemon, Some(r.run), deadline, budget, games, modeGames,
           s.cursor, 0, false, Board(map[], map[]),
           Gate(s.gate.until, map[], [], map[], map[], {}, []), s.disk, s.journal, 0),
     Started(deadline, s.gate.until, |games|))
  }

  ghost function BeginStep(s: State, r: Request): (State, Reply)
    requires r.op.Begin?
  {
    if s.owner.Some? && !r.op.attemptCompleted then (s, Refused)
    else
      // a failed request leaves the daemon's memory half updated; without a daemon nothing is written back
      var s1 := if s.owner.Some? then s.(owner := None, gate := s.gate.(permits := map[])) else s;
      if r.op.handoff.None? then (if s.daemon then s1 else s, Refused)
      else
        var handoff := r.op.handoff.value;
        var s2 := s1.(gate := s1.gate.(until := Max(s1.gate.until, handoff.until)));
        if r.op.allowed == Some([]) || (r.op.preferred.Some? && |r.op.preferred.value| > 500) then
          (if s.daemon then s2 else s, Refused)
        else StartRun(s2, r, handoff.slug)
  }

  ghost function LeasedStep(s: State, r: Request, key: ClaimKey): (State, Reply)
    requires key in s.board.claims
  {
    match r.op
    case ReserveModes(_, counts, targets) => ReserveStep(s, r, key, counts, targets)
    case Append(slug, docs) => AppendStep(s, r, slug, docs)
    case Ack(slug, hash) => AckStep(s, slug, hash)
    case Done(_, status) => DoneStep(s, r, key, status)
    case Permits(slug, requestKey, full) =>
      if IsHash(requestKey) then PermitStep(s, r, slug, requestKey, full) else (s, Refused)
    case Response(slug, requestKey, outcome, usable, retryAfter) =>
      if IsHash(requestKey) then ResponseStep(s, r, slug, requestKey, outcome, usable, retryAfter) else (s, Refused)
    case _ => (s, Refused)
  }

  /** The game an operation under a lease acts on. */
  function SlugOf(op: Op): Slug {
    match op
    case ReserveModes(slug, _, _) => slug
    case Append(slug, _) => slug
    case Ack(slug, _) => slug
    case Done(slug, _) => slug
    case Permits(slug, _, _) => slug
    case Response(slug, _, _, _, _) => slug
    case _ => ""
  }

  /** 64 digits or letters from a to f. */
  ghost predicate Hex64(h: Hash) {
    |h| == 64 && forall c | c in h :: '0' <= c <= '9' || 'a' <= c <= 'f'
  }

  lemma Hex64Is(h: Hash)
    ensures Hex64(h) <==> IsHash(h)
  {
    assert forall i | 0 <= i < |h| :: h[i] in h;
  }

  /** No breaker stands in the way: neither the node's own, nor that of the egress all containers share, nor an overload. */
  ghost predicate Unhalted(s: State, node: Node) {
    node !in s.gate.halted && !(s.topology.sharedEgress && "local-egress" in s.gate.halted) && !s.overloaded
  }

  /** The request comes from the run in charge and from a worker with a lease on its game. */
  predicate UnderLease(s: State, r: Request) {
    s.owner == Some(r.run) && WorkerClaim(s.board.claims, r.worker, SlugOf(r.op)).Some?
  }

  ghost function Step(s: State, r: Request): (State, Reply) {
    if r.op.Overload? then (if s.owner.Some? then s.(overloaded := true) else s, Empty)
    else if r.op.Begin? then BeginStep(s, r)
    else if s.owner != Some(r.run) then (s, Refused)
    else if r.op.End? then (s.(owner := None, gate := s.gate.(permits := map[], waiters := [])), Empty)
    else if r.op.Claims? then ClaimStep(s, r, r.op.accepted)
    else if r.op.Permits? && (Egress(s, r.node) || s.overloaded) then (s, Halted)
    else
      var key := WorkerClaim(s.board.claims, r.worker, SlugOf(r.op));
      if key.None? then (s, Refused) else LeasedStep(s, r, key.value)
  }

  /** A history of the server: every request takes one state to the next. */
  ghost predicate Behavior(states: seq<State>, rs: seq<Request>) {
    |states| == |rs| + 1 && forall i {:trigger rs[i]} | 0 <= i < |rs| :: states[i + 1] == Step(states[i], rs[i]).0
  }

  /** A server that has never begun a run. */
  ghost predicate Initial(s: State) {
    s.owner == None && s.board == Board(map[], map[]) && s.gate.permits == map[] && s.gate.halted == {}
    && s.gate.waiters == [] && s.gate.nodeThrottle == map[] && s.gate.rateNodes == []
  }
}
