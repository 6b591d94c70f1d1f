/**
 The shared queue state of `actions/coordinator.py`, as values: leases, mode quotas, request
 permits, throttling records, the per-game round files and the request journal.
 */
module CoordinatorTypes {
  import opened Base

  type Worker = string
  type Node = string
  type Slug = string
  type Run = string
  type Hash = string
  type RequestKey = string
  /** A spin type; 0 is a normal round. */
  type Mode = int

  const GLOBAL_LIMIT_NODES := 2
  const GLOBAL_LIMIT_WINDOW_MS := 120_000
  const CONSERVATIVE_WAIT_MS := 60_000
  const MINIMUM_BACKOFF_MS := 10_000
  const CLAIM_WAIT_MAX_MS := 30_000
  const DATA_FSYNC_EVERY := 25
  const TRANSIENT_RETRY_MS := 60_000
  const MAX_TRANSIENT_RETRIES_PER_ROUND := 2
  const WAITER_TTL_MS := 60_000
  const LOCAL_EGRESS: Node := "local-egress"

  /** The budget a run is started with. */
  datatype Topology = Topology(
    nodes: pos, nodeMs: pos, throttleLimit: pos, maxInFlight: pos, maxClaims: pos, maxShards: pos,
    fillIdleNormal: bool, sharedEgress: bool, claimStartSpacingMs: nat)

  // ----- leases -----

  datatype Status = Running | Released | ShardComplete | Waiting | Retryable | Unavailable | Failed
                  | AlreadyAccepted | Other(name: string)

  /** The key of a lease: the game itself, or the game followed by `#2` for its second shard. */
  datatype ClaimKey = Primary(slug: Slug) | Secondary(slug: Slug)

  /** The key of a game's lease by shard; a normal lease counts as shard 0. */
  function KeyOf(slug: Slug, shard: nat): ClaimKey {
    if shard == 2 then Secondary(slug) else Primary(slug)
  }

  datatype Claim = Claim(
    status: Status, worker: Option<Worker>, node: Option<Node>, specialOnly: bool,
    shardIndex: nat, claimedAt: int, retryAt: int, retryCount: nat)

  const ACCEPTED_CLAIM := Claim(AlreadyAccepted, None, None, false, 0, 0, 0, 0)

  // ----- mode quotas -----

  datatype Reservation = Reservation(reserved: map<Mode, nat>, done: map<Mode, nat>)

  /** What the first reservation of a run fixes for a game. */
  datatype Frozen = Frozen(counts: map<Mode, nat>, targets: map<Mode, nat>, reservations: map<Worker, Reservation>)

  datatype Quota = Quota(
    frozen: Option<Frozen>, specialComplete: bool, unavailable: bool, unavailableNodes: set<Node>, accepted: bool)
  {
    /** A Python dictionary is true when it holds anything at all. */
    predicate Truthy() {
      frozen.Some? || accepted || unavailableNodes != {}
    }
  }

  const NO_QUOTA := Quota(None, false, false, {}, false)
  const ACCEPTED_QUOTA := Quota(None, true, false, {}, true)

  datatype Board = Board(claims: map<ClaimKey, Claim>, quotas: map<Slug, Quota>)

  // ----- request gate -----

  datatype Permit = Permit(slug: Slug, worker: Worker, node: Node, at: int)
  datatype Waiter = Waiter(key: RequestKey, node: Node, seen: int)
  datatype Hit = Hit(node: Node, at: int)

  datatype Gate = Gate(
    until: int, permits: map<RequestKey, Permit>, waiters: seq<Waiter>, nodeUntil: map<Node, int>,
    nodeThrottle: map<Node, seq<Worker>>, halted: set<Node>, rateNodes: seq<Hit>)

  /** The forms of a `Retry-After` header: delay seconds (here in milliseconds), a date, or neither. */
  datatype RetryAfter = Delay(ms: int) | Date(at: int) | Unparsable

  // ----- files -----

  /** A line of a game's NDJSON file: a round, or a line without a readable hash. */
  datatype Line = Round(hash: Hash, buy: Mode) | Opaque

  datatype Doc = Doc(game: Slug, hash: Hash, buy: Mode)

  /** `durable` is the number of leading lines known to be on disk. */
  datatype Disk = Disk(
    ndjson: map<Slug, seq<Line>>, index: map<Slug, seq<Hash>>, cache: map<Slug, set<Hash>>,
    unsynced: map<Slug, nat>, durable: map<Slug, nat>, committed: map<Slug, Hash>)

  datatype HttpResponse = HttpResponse(status: int, body: string)
  datatype Entry = Entry(response: Option<HttpResponse>, usable: bool)
  {
    predicate Replayable() {
      response.Some? && usable && 200 <= response.value.status < 300
    }
  }

  type Journal = map<(Slug, RequestKey), Entry>

  // ----- the whole state -----

  datatype State = State(
    daemon: bool, owner: Option<Run>, deadline: int, topology: Topology, games: seq<Slug>, modeGames: seq<Slug>,
    cursor: Option<Slug>, nextClaimAt: int, overloaded: bool, board: Board, gate: Gate, disk: Disk,
    journal: Journal, responses: nat)

  // ----- requests -----

  datatype Game = Game(slug: Slug, modes: bool)
  datatype Handoff = Handoff(until: int, slug: Option<Slug>)

  datatype Outcome = Compact(status: int) | Full(response: Option<HttpResponse>)

  datatype Op =
    | Begin(attemptCompleted: bool, handoff: Option<Handoff>, active: seq<Game>, allowed: Option<seq<Slug>>,
            preferred: Option<seq<Slug>>, budget: Topology, durationMs: pos)
    | Claims(accepted: set<Slug>)
    | ReserveModes(slug: Slug, counts: map<Mode, int>, targets: map<Mode, int>)
    | Append(slug: Slug, docs: seq<Doc>)
    | Ack(slug: Slug, hash: Hash)
    | Done(slug: Slug, status: Status)
    | Permits(slug: Slug, key: RequestKey, full: bool)
    | Response(slug: Slug, key: RequestKey, outcome: Outcome, usable: Option<bool>, retryAfter: RetryAfter)
    | End
    | Overload

  datatype Request = Request(run: Run, now: int, worker: Worker, node: Node, op: Op)

  datatype Reply =
    | Empty
    | Refused
    | Stop
    | Halted
    | Wait(ms: int)
    | Backoff
    | Lease(slug: Slug, specialOnly: bool, shardIndex: nat)
    | Targets(targets: map<Mode, int>)
    | Written(written: nat, duplicates: nat)
    | Cached(response: HttpResponse)
    | Granted
    | Recorded(until: int, nodeUntil: int, halted: bool)
    | Started(deadline: int, until: int, games: nat)

  // ----- pure helpers of the source -----

  predicate IsDigits(s: string) {
    s != "" && forall i | 0 <= i < |s| :: '0' <= s[i] <= '9'
  }

  /** A thread is named `<node>.<thread>`; any other name is its own node. */
  function NodeOf(worker: Worker): Node {
    var dot := IndexOf(worker, '.');
    if dot < |worker| && IsDigits(worker[..dot]) && IsDigits(worker[dot + 1..]) then worker[..dot] else worker
  }

  predicate Reclaimable(claim: Claim, now: int) {
    claim.status in {Released, ShardComplete, Waiting}
    || (claim.status == Retryable && claim.retryAt <= now && claim.retryCount < MAX_TRANSIENT_RETRIES_PER_ROUND)
  }

  function RetryAfterMs(header: RetryAfter, now: int): int {
    match header
    case Delay(ms) => ms
    case Date(at) => at - now
    case Unparsable => CONSERVATIVE_WAIT_MS
  }

  predicate IsHash(h: Hash) {
    |h| == 64 && forall i | 0 <= i < |h| :: '0' <= h[i] <= '9' || 'a' <= h[i] <= 'f'
  }

  function PerNode(t: Topology): nat {
    Max(1, CeilDiv(t.maxClaims, t.nodes))
  }
}
