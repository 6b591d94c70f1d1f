/**
 Where the two halves of the quota protocol meet: rounds that the client's loop collected under a reservation can be sent
 in any batches, any number of times, and never store more than the reservation owes, so the coordinator's quota holds.
 */
module QuotaProtocol {
  import opened Base
  import opened CoordinatorTypes
  import opened CoordinatorSteps
  import opened QuotaSafety
  import Capture
  import RoundFiles

  // ----- how many rounds are missing from a file -----

  ghost predicate OneDocPerHash(docs: seq<Doc>) {
    forall d, e | d in docs && e in docs && d.hash == e.hash :: d == e
  }

  /** The rounds of a mode among `docs` that are not stored yet. */
  ghost function Missing(docs: seq<Doc>, known: set<Hash>, mode: Mode): set<Doc> {
    set d | d in docs && d.hash !in known && d.buy == mode
  }

  lemma MissingFirst(docs: seq<Doc>, known: set<Hash>, mode: Mode)
    requires docs != [] && OneDocPerHash(docs)
    ensures var d, rest := docs[0], docs[1..];
      if d.hash in known then Missing(docs, known, mode) == Missing(rest, known, mode)
      else
        |Missing(docs, known, mode)| == |Missing(rest, known + {d.hash}, mode)| + if d.buy == mode then 1 else 0
  {
    var d, rest := docs[0], docs[1..];
    assert docs == [d] + rest;
    if d.hash in known {
      assert Missing(docs, known, mode) == Missing(rest, known, mode);
    } else {
      var others := Missing(rest, known + {d.hash}, mode);
      assert Missing(docs, known, mode) == others + if d.buy == mode then {d} else {};
      assert d !in others;
    }
  }

  lemma {:induction false} FreshCount(docs: seq<Doc>, known: set<Hash>, mode: Mode)
    requires OneDocPerHash(docs)
    ensures CountMode(Fresh(docs, known), mode) == |Missing(docs, known, mode)|
    decreases docs
  {
    if docs != [] {
      var d, rest := docs[0], docs[1..];
      MissingFirst(docs, known, mode);
      if d.hash in known {
        FreshCount(rest, known, mode);
      } else {
        FreshCount(rest, known + {d.hash}, mode);
        assert Fresh(docs, known)[1..] == Fresh(rest, known + {d.hash});
      }
    }
  }

  /** A batch takes what it newly stores off what is missing of the collection it comes from. */
  lemma BatchTakes(all: seq<Doc>, batch: seq<Doc>, known: set<Hash>, mode: Mode)
    requires OneDocPerHash(all) && forall d | d in batch :: d in all
    ensures CountMode(Fresh(all, known), mode)
         == CountMode(Fresh(batch, known), mode)
            + CountMode(Fresh(all, known + RoundFiles.SetOf(HashesOf(batch))), mode)
  {
    var after := known + RoundFiles.SetOf(HashesOf(batch));
    FreshCount(all, known, mode);
    FreshCount(batch, known, mode);
    FreshCount(all, after, mode);
    forall d | d in batch ensures d.hash in after {
      var i :| 0 <= i < |batch| && batch[i] == d;
      assert HashesOf(batch)[i] == d.hash;
    }
    forall d | d in Missing(all, known, mode) && d.hash in after ensures d in batch {
      var i :| 0 <= i < |batch| && HashesOf(batch)[i] == d.hash;
      assert batch[i] in all;
    }
    assert Missing(all, known, mode) == Missing(batch, known, mode) + Missing(all, after, mode);
    assert Missing(batch, known, mode) !! Missing(all, after, mode);
  }

  lemma MoreKnown(all: seq<Doc>, known: set<Hash>, more: set<Hash>, mode: Mode)
    requires OneDocPerHash(all) && known <= more
    ensures CountMode(Fresh(all, more), mode) <= CountMode(Fresh(all, known), mode)
  {
    FreshCount(all, known, mode);
    FreshCount(all, more, mode);
    CardinalityMonotone(Missing(all, more, mode), Missing(all, known, mode));
  }

  // ----- a reservation over time -----

  ghost predicate Holds(s: State, slug: Slug, worker: Worker) {
    slug in s.board.quotas && s.board.quotas[slug].frozen.Some?
    && worker in s.board.quotas[slug].frozen.value.reservations
  }

  ghost function OwedNow(s: State, slug: Slug, worker: Worker, mode: Mode): nat
    requires Holds(s, slug, worker)
  {
    Owed(s.board.quotas[slug].frozen.value.reservations[worker], mode)
  }

  ghost predicate Sends(s: State, r: Request, slug: Slug, worker: Worker) {
    r.op.Append? && r.op.slug == slug && r.worker == worker && UnderLease(s, r) && ValidBatch(slug, r.op.docs)
  }

  lemma {:induction false} CreditOwes(f: Frozen, author: Worker, docs: seq<Doc>, worker: Worker, mode: Mode)
    ensures var f' := Credit(f, author, docs);
      && OwedBy(f', worker, mode)
         == (if author == worker then Max(0, OwedBy(f, worker, mode) as int - CountMode(docs, mode) as int)
             else OwedBy(f, worker, mode))
      && (worker in f'.reservations <==> worker in f.reservations)
    decreases docs
  {
    if docs != [] {
      CreditOneCommits(f, author, docs[0].buy, mode);
      CreditOwes(CreditOne(f, author, docs[0].buy), author, docs[1..], worker, mode);
    }
  }

  /** What a worker still owes does not change while its reservation stands. */
  ghost predicate OwesAlike(s: State, s': State, slug: Slug, worker: Worker, mode: Mode) {
    Holds(s, slug, worker) && Holds(s', slug, worker) ==> OwedNow(s', slug, worker, mode) == OwedNow(s, slug, worker, mode)
  }

  lemma StepOwesAlike(s: State, r: Request, slug: Slug, worker: Worker, mode: Mode)
    requires !r.op.Begin? && !Sends(s, r, slug, worker)
    ensures OwesAlike(s, Step(s, r).0, slug, worker, mode)
  {
    hide Step, Credit, Share, Fresh, Known, AllMet, Raised, Owed;
    RecordCases(s, r, slug);
    var f := RecordOf(s.board, slug);
    if Stores(s, r, slug) && f.Some? {
      CreditOwes(f.value, r.worker, Fresh(r.op.docs, Known(s.disk, slug, s.daemon)), worker, mode);
    }
  }

  // ----- sending a collection -----

  ghost function FileHashes(s: State, slug: Slug): set<Hash> {
    Hashes(RoundFiles.LinesAt(s.disk, slug))
  }

  /** The worker's reservation owes at least what of the collection is not in the file. */
  ghost predicate Covers(s: State, slug: Slug, worker: Worker, mode: Mode, all: seq<Doc>) {
    Holds(s, slug, worker) && CountMode(Fresh(all, FileHashes(s, slug)), mode) <= OwedNow(s, slug, worker, mode)
  }

  lemma SendKeepsCover(s: State, r: Request, slug: Slug, worker: Worker, mode: Mode, all: seq<Doc>)
    requires RoundFiles.FilesInv(s) && Covers(s, slug, worker, mode, all) && OneDocPerHash(all)
    requires Sends(s, r, slug, worker) && forall d | d in r.op.docs :: d in all
    ensures Covers(Step(s, r).0, slug, worker, mode, all)
    ensures NewRounds(s, slug, r.op.docs, mode) <= OwedNow(s, slug, worker, mode)
  {
    hide Step, ValidBatch, Hashes, RoundFiles.FileInv, Fresh, CountMode, AppendStep, Credit;
    assert RoundFiles.FileInv(s, slug);
    var known, docs := FileHashes(s, slug), r.op.docs;
    RoundFiles.FileStep(s, r, slug);
    RoundFiles.StoredHashes(RoundFiles.LinesAt(s.disk, slug), docs);
    KnownInFile(s, slug);
    BatchTakes(all, docs, known, mode);
    RoundFiles.AppendIs(s, r);
    SentCredits(s, r, slug, worker, mode);
  }

  lemma KnownInFile(s: State, slug: Slug)
    requires RoundFiles.FileInv(s, slug)
    ensures Known(s.disk, slug, s.daemon) == FileHashes(s, slug)
  {
    RoundFiles.KnownIsExact(s.disk, slug, s.daemon);
  }

  lemma SentCredits(s: State, r: Request, slug: Slug, worker: Worker, mode: Mode)
    requires r.op.Append? && Holds(s, slug, worker) && r.worker == worker && ValidBatch(slug, r.op.docs)
    ensures var s' := AppendStep(s, r, slug, r.op.docs).0;
      && Holds(s', slug, worker)
      && OwedNow(s', slug, worker, mode)
         == Max(0, OwedNow(s, slug, worker, mode) as int - NewRounds(s, slug, r.op.docs, mode) as int)
  {
    hide Known, Touch, StoreRounds, Commit, Fresh, AllMet, ValidBatch, Credit;
    var added := Fresh(r.op.docs, Known(s.disk, slug, s.daemon));
    CreditOwes(s.board.quotas[slug].frozen.value, worker, added, worker, mode);
    CreditNothing(s.board.quotas[slug].frozen.value, worker);
  }

  lemma CreditNothing(f: Frozen, worker: Worker)
    ensures Credit(f, worker, []) == f
  {
  }

  /**
   The stretch of a history in which a worker sends what it collected under one reservation: the reservation stands
   throughout, it covers the collection at the start, and every batch comes from the collection.
   */
  ghost predicate SendsCollection(states: seq<State>, rs: seq<Request>, slug: Slug, worker: Worker, mode: Mode, i: nat,
                                  n: nat, all: seq<Doc>)
    requires Behavior(states, rs) && i <= n <= |rs|
  {
    && OneDocPerHash(all) && Holds(states[i], slug, worker)
    && CountMode(all, mode) <= OwedNow(states[i], slug, worker, mode)
    && (forall k | i <= k <= n :: Holds(states[k], slug, worker))
    && (forall k {:trigger rs[k]} | i <= k < |rs| && k <= n ::
          !rs[k].op.Begin? && (Sends(states[k], rs[k], slug, worker) ==> forall d | d in rs[k].op.docs :: d in all))
  }

  lemma {:induction false} CoversAt(states: seq<State>, rs: seq<Request>, slug: Slug, worker: Worker, mode: Mode, i: nat,
                                    n: nat, all: seq<Doc>, k: nat)
    requires Behavior(states, rs) && RoundFiles.FilesInv(states[0]) && i <= k <= n <= |rs|
    requires SendsCollection(states, rs, slug, worker, mode, i, n, all)
    ensures Covers(states[k], slug, worker, mode, all)
    decreases k
  {
    hide Step, RoundFiles.FilesInv, Sends, Hashes;
    RoundFiles.FilesAt(states, rs, k);
    if k == i {
      MoreKnown(all, {}, FileHashes(states[i], slug), mode);
      FreshOfNothing(all, mode);
    } else {
      CoversAt(states, rs, slug, worker, mode, i, n, all, k - 1);
      RoundFiles.FilesAt(states, rs, k - 1);
      var s, r := states[k - 1], rs[k - 1];
      if Sends(s, r, slug, worker) {
        SendKeepsCover(s, r, slug, worker, mode, all);
      } else {
        StepOwesAlike(s, r, slug, worker, mode);
        FileGrows(s, r, slug);
        MoreKnown(all, FileHashes(s, slug), FileHashes(states[k], slug), mode);
      }
    }
  }

  lemma FileGrows(s: State, r: Request, slug: Slug)
    requires RoundFiles.FilesInv(s)
    ensures FileHashes(s, slug) <= FileHashes(Step(s, r).0, slug)
  {
    hide Step, Hashes;
    RoundFiles.FileStep(s, r, slug);
    RoundFiles.StoredHashes(RoundFiles.LinesAt(s.disk, slug), RoundFiles.Submitted(s, r, slug));
  }

  lemma FreshOfNothing(all: seq<Doc>, mode: Mode)
    ensures CountMode(Fresh(all, {}), mode) <= CountMode(all, mode)
  {
    FreshBound(all, {}, mode);
  }

  lemma {:induction false} FreshBound(docs: seq<Doc>, known: set<Hash>, mode: Mode)
    ensures CountMode(Fresh(docs, known), mode) <= CountMode(docs, mode)
    decreases docs
  {
    if docs != [] {
      FreshBound(docs[1..], known, mode);
      FreshBound(docs[1..], known + {docs[0].hash}, mode);
      assert docs[0].hash !in known ==> Fresh(docs, known)[1..] == Fresh(docs[1..], known + {docs[0].hash});
    }
  }

  // ----- the two halves together -----

  /** A worker's first report under a purchase lease, for the targets that the game was given. */
  ghost predicate FirstReport(s: State, r: Request, key: ClaimKey, counts: map<Mode, int>, targets: map<Mode, int>) {
    && key in s.board.claims && s.board.claims[key].specialOnly && ValidReport(counts, targets)
    && (key.slug in s.board.quotas && s.board.quotas[key.slug].frozen.Some? ==>
          && s.board.quotas[key.slug].frozen.value.targets == Clamped(targets)
          && r.worker !in s.board.quotas[key.slug].frozen.value.reservations)
  }

  /** A first reservation promises exactly what it reserves, and the targets it answers with are computed from that. */
  lemma ReservationAnswers(s: State, r: Request, key: ClaimKey, counts: map<Mode, int>, targets: map<Mode, int>)
    requires FirstReport(s, r, key, counts, targets)
    ensures var (s', reply) := ReserveStep(s, r, key, counts, targets);
      && Holds(s', key.slug, r.worker)
      && var mine := s'.board.quotas[key.slug].frozen.value.reservations[r.worker];
         && reply == Targets(LocalTargets(counts, targets, mine))
         && forall mode :: Owed(mine, mode) == Get(mine.reserved, mode, 0)
  {
    hide Share, LocalTargets, AllMet, Raised;
  }

  lemma DistinctHashes(docs: seq<Doc>)
    requires forall i, j | 0 <= i < j < |docs| :: docs[i].hash != docs[j].hash
    ensures OneDocPerHash(docs)
  {
    forall d, e | d in docs && e in docs && d.hash == e.hash ensures d == e {
      var i :| 0 <= i < |docs| && docs[i] == d;
      var j :| 0 <= j < |docs| && docs[j] == e;
      assert !(i < j) && !(j < i);
    }
  }

  /** What `CaptureReserved` collects under a reservation is covered by it: the start of such a stretch. */
  lemma CollectedIsCovered(s: State, slug: Slug, worker: Worker, mode: Mode, all: seq<Doc>)
    requires Holds(s, slug, worker) && forall i, j | 0 <= i < j < |all| :: all[i].hash != all[j].hash
    requires var mine := s.board.quotas[slug].frozen.value.reservations[worker];
      Owed(mine, mode) == Get(mine.reserved, mode, 0) && CountMode(all, mode) <= Get(mine.reserved, mode, 0)
    ensures OneDocPerHash(all) && CountMode(all, mode) <= OwedNow(s, slug, worker, mode)
    ensures Covers(s, slug, worker, mode, all)
  {
    DistinctHashes(all);
    MoreKnown(all, {}, FileHashes(s, slug), mode);
    FreshOfNothing(all, mode);
  }

  /** From state `i` to `n` the worker's reservation stands and every batch it sends comes from the collection. */
  ghost predicate SendsFrom(states: seq<State>, rs: seq<Request>, slug: Slug, worker: Worker, i: nat, n: nat, all: seq<Doc>)
    requires Behavior(states, rs) && i <= n <= |rs|
  {
    && (forall k | i <= k <= n :: Holds(states[k], slug, worker))
    && (forall k {:trigger rs[k]} | i <= k < |rs| && k <= n ::
          !rs[k].op.Begin? && (Sends(states[k], rs[k], slug, worker) ==> forall d | d in rs[k].op.docs :: d in all))
  }

  /**
   The client's loop behind the coordinator's answer: the worker reports its counts, is told its targets and collects up to
   them. What it collects is covered by what it was promised, for every mode; and wherever the reservation stands while
   only rounds of the collection are sent, the worker is sending a collection under its reservation.
   */
  method CollectReserved(ghost s: State, ghost r: Request, ghost key: ClaimKey, slug: Slug, modes: seq<Mode>,
                         ghost targets: map<Mode, int>, told: map<Mode, int>, start: map<Mode, int>, known: set<Hash>,
                         normal: int, special: int, maxNewRounds: nat, maxRetries: nat, attempt: nat -> Capture.Attempt)
    returns (counts: map<Mode, int>, collected: seq<Doc>, ending: Capture.Ending)
    requires key.slug == slug && FirstReport(s, r, key, Capture.CountsForTargets(start, targets), targets)
    requires ReserveStep(s, r, key, Capture.CountsForTargets(start, targets), targets).1 == Targets(told)
    requires (forall m | m in modes :: m in targets) && forall m | m in targets :: Get(start, m, 0) >= 0
    ensures Capture.Gathered(slug, modes, start, known, None, counts, collected)
    ensures var s' := ReserveStep(s, r, key, Capture.CountsForTargets(start, targets), targets).0;
      && Holds(s', slug, r.worker) && OneDocPerHash(collected)
      && (forall mode :: CountMode(collected, mode) <= OwedNow(s', slug, r.worker, mode))
      && (forall mode :: Covers(s', slug, r.worker, mode, collected))
      && (forall states, rs, i: nat, n: nat, mode |
            && Behavior(states, rs) && i <= n <= |rs| && states[i] == s'
            && SendsFrom(states, rs, slug, r.worker, i, n, collected) ::
            SendsCollection(states, rs, slug, r.worker, mode, i, n, collected))
  {
    hide ReserveStep, Capture.Gathered, Covers, OwedNow, Behavior, Sends;
    ghost var reported := Capture.CountsForTargets(start, targets);
    ghost var s' := ReserveStep(s, r, key, reported, targets).0;
    ReservationAnswers(s, r, key, reported, targets);
    ghost var mine := s'.board.quotas[slug].frozen.value.reservations[r.worker];
    counts, collected, ending := Capture.CaptureReserved(slug, modes, told, targets, mine, start, known, normal, special,
                                                         maxNewRounds, maxRetries, attempt);
    GatheredDistinct(slug, modes, start, known, counts, collected);
    forall mode
      ensures CountMode(collected, mode) <= OwedNow(s', slug, r.worker, mode)
      ensures Covers(s', slug, r.worker, mode, collected)
    {
      CollectedIsCovered(s', slug, r.worker, mode, collected);
    }
    DistinctHashes(collected);
  }

  lemma GatheredDistinct(slug: Slug, modes: seq<Mode>, start: map<Mode, int>, known: set<Hash>, counts: map<Mode, int>,
                         collected: seq<Doc>)
    requires Capture.Gathered(slug, modes, start, known, None, counts, collected)
    ensures forall i, j | 0 <= i < j < |collected| :: collected[i].hash != collected[j].hash
  {
  }

  /** A batch that stores nothing new of the mode, or comes from a collection under the worker's reservation. */
  ghost predicate Covered(states: seq<State>, rs: seq<Request>, slug: Slug, mode: Mode, j: nat)
    requires Behavior(states, rs) && j < |rs|
  {
    Sends(states[j], rs[j], slug, rs[j].worker) ==>
      || NewRounds(states[j], slug, rs[j].op.docs, mode) == 0
      || exists i, all :: 0 <= i <= j && SendsCollection(states, rs, slug, rs[j].worker, mode, i, j, all)
  }

  /** Sending a collection in any batches, again after lost replies and beside another shard, keeps to the reservation. */
  lemma CoveredIsDisciplined(states: seq<State>, rs: seq<Request>, slug: Slug, mode: Mode, j: nat)
    requires Behavior(states, rs) && RoundFiles.FilesInv(states[0]) && j < |rs| && Covered(states, rs, slug, mode, j)
    ensures Disciplined(states[j], rs[j], slug, mode)
  {
    hide Step, RoundFiles.FilesInv, Hashes, UnderLease, ValidBatch, NewRounds;
    var s, r := states[j], rs[j];
    if Sends(s, r, slug, r.worker) && NewRounds(s, slug, r.op.docs, mode) > 0 {
      var i, all :| 0 <= i <= j && SendsCollection(states, rs, slug, r.worker, mode, i, j, all);
      CoversAt(states, rs, slug, r.worker, mode, i, j, all, j);
      RoundFiles.FilesAt(states, rs, j);
      SendKeepsCover(s, r, slug, r.worker, mode, all);
    }
  }

  /**
   The whole protocol: when every batch stores nothing new of a purchase mode or comes from what its worker collected
   under a reservation, the mode stays bounded in every state exactly when every report fitted.
   */
  lemma ClientsNeverOvershoot(states: seq<State>, rs: seq<Request>, slug: Slug, mode: Mode)
    requires Behavior(states, rs) && RoundFiles.FilesInv(states[0]) && states[0].board.quotas == map[] && mode != 0
    requires forall j {:trigger rs[j]} | 0 <= j < |rs| :: Covered(states, rs, slug, mode, j) && !rs[j].op.Begin?
    ensures (forall i | 0 <= i <= |rs| :: Bounded(states, rs, slug, mode, i))
       <==> (forall j | 0 <= j < |rs| :: FitsAt(states, rs, slug, mode, j))
  {
    hide Step, Covered, Disciplined, Bounded, FitsAt, RoundFiles.FilesInv;
    forall j {:trigger rs[j]} | 0 <= j < |rs| ensures Disciplined(states[j], rs[j], slug, mode) {
      assert !rs[j].op.Begin?;
      CoveredIsDisciplined(states, rs, slug, mode, j);
    }
    NoQuotaOvershoot(states, rs, slug, mode);
  }
}
