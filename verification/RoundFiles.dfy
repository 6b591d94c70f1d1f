/**
 The deduplicated round files: the NDJSON file, its hash index and the daemon's cache agree, no hash is stored twice,
 and the part not yet known to be on disk stays below one sync group.
 */
module RoundFiles {
  import opened Base
  import opened CoordinatorTypes
  import opened CoordinatorSteps

  ghost function SetOf(hs: seq<Hash>): set<Hash> {
    set h | h in hs
  }

  function LinesAt(d: Disk, slug: Slug): seq<Line> {
    Get(d.ndjson, slug, [])
  }

  ghost predicate Agrees(d: Disk, slug: Slug) {
    && (slug in d.index ==> SetOf(d.index[slug]) == Hashes(LinesAt(d, slug)))
    && (slug in d.cache ==> slug in d.index && d.cache[slug] == Hashes(LinesAt(d, slug)))
  }

  ghost predicate DuplicateFree(lines: seq<Line>) {
    forall i, j | 0 <= i < j < |lines| && lines[i].Round? && lines[j].Round? :: lines[i].hash != lines[j].hash
  }

  // ----- the three views of a file -----

  lemma {:induction false} SeededHashes(lines: seq<Line>)
    ensures SetOf(Seeded(lines)) == Hashes(lines)
    decreases lines
  {
    if lines != [] {
      SeededHashes(lines[1..]);
      HashesAppend([lines[0]], lines[1..]);
      assert [lines[0]] + lines[1..] == lines;
      assert Hashes([lines[0]]) == if lines[0].Round? then {lines[0].hash} else {};
      assert SetOf(Seeded(lines)) == (if lines[0].Round? then {lines[0].hash} else {}) + SetOf(Seeded(lines[1..]));
    }
  }

  lemma HashesAppend(a: seq<Line>, b: seq<Line>)
    ensures Hashes(a + b) == Hashes(a) + Hashes(b)
  {
    forall h | h in Hashes(b) ensures h in Hashes(a + b) {
      var i :| 0 <= i < |b| && b[i].Round? && b[i].hash == h;
      assert (a + b)[|a| + i] == b[i];
    }
    forall h | h in Hashes(a) ensures h in Hashes(a + b) {
      var i :| 0 <= i < |a| && a[i].Round? && a[i].hash == h;
      assert (a + b)[i] == a[i];
    }
  }

  lemma HashesOfLines(docs: seq<Doc>)
    ensures Hashes(LinesOf(docs)) == SetOf(HashesOf(docs))
  {
    forall h | h in SetOf(HashesOf(docs)) ensures h in Hashes(LinesOf(docs)) {
      var i :| 0 <= i < |docs| && HashesOf(docs)[i] == h;
      assert LinesOf(docs)[i].Round? && LinesOf(docs)[i].hash == h;
    }
    forall h | h in Hashes(LinesOf(docs)) ensures h in SetOf(HashesOf(docs)) {
      var i :| 0 <= i < |docs| && LinesOf(docs)[i].Round? && LinesOf(docs)[i].hash == h;
      assert HashesOf(docs)[i] == h;
    }
  }

  /** Whichever of cache, index or file is consulted, the known hashes are those in the file. */
  lemma KnownIsExact(d: Disk, slug: Slug, daemon: bool)
    requires Agrees(d, slug)
    ensures Known(d, slug, daemon) == Hashes(LinesAt(d, slug))
  {
    SeededHashes(LinesAt(d, slug));
  }

  lemma TouchAgrees(d: Disk, touched: Slug, slug: Slug, daemon: bool)
    requires Agrees(d, touched) && Agrees(d, slug)
    ensures Agrees(Touch(d, touched, daemon), slug)
    ensures touched in Touch(d, touched, daemon).index
    ensures daemon ==> touched in Touch(d, touched, daemon).cache
  {
    hide Hashes, Seeded;
    KnownIsExact(d, touched, daemon);
    SeededHashes(LinesAt(d, touched));
  }

  // ----- deduplication -----

  lemma ConsHashes(doc: Doc, docs: seq<Doc>)
    ensures HashesOf([doc] + docs) == [doc.hash] + HashesOf(docs)
    ensures SetOf(HashesOf([doc] + docs)) == {doc.hash} + SetOf(HashesOf(docs))
  {
  }

  lemma NonEmptyHashes(docs: seq<Doc>)
    requires docs != []
    ensures SetOf(HashesOf(docs)) != {}
  {
    assert HashesOf(docs)[0] in SetOf(HashesOf(docs));
  }

  lemma {:induction false} FreshFacts(docs: seq<Doc>, known: set<Hash>)
    ensures var added := Fresh(docs, known);
      && |added| <= |docs|
      && SetOf(HashesOf(added)) == SetOf(HashesOf(docs)) - known
      && (forall i | 0 <= i < |added| :: added[i].hash !in known)
      && (forall i, j | 0 <= i < j < |added| :: added[i].hash != added[j].hash)
    decreases docs
  {
    hide HashesOf, SetOf;
    if docs == [] {
      assert SetOf(HashesOf([])) == {} by { NoHashes(); }
    } else {
      var h := docs[0].hash;
      assert docs == [docs[0]] + docs[1..];
      ConsHashes(docs[0], docs[1..]);
      FreshFacts(docs[1..], known);
      FreshFacts(docs[1..], known + {h});
      ConsHashes(docs[0], Fresh(docs[1..], known + {h}));
    }
  }

  lemma NoHashes()
    ensures SetOf(HashesOf([])) == {}
  {
  }

  lemma {:induction false} FreshSplit(a: seq<Doc>, b: seq<Doc>, known: set<Hash>)
    ensures Fresh(a + b, known) == Fresh(a, known) + Fresh(b, known + SetOf(HashesOf(a)))
    decreases a
  {
    if a == [] {
      assert a + b == b;
      assert known + SetOf(HashesOf(a)) == known;
    } else {
      var h := a[0].hash;
      assert (a + b)[1..] == a[1..] + b;
      assert HashesOf(a) == [h] + HashesOf(a[1..]);
      FreshSplit(a[1..], b, known);
      FreshSplit(a[1..], b, known + {h});
      assert known + {h} + SetOf(HashesOf(a[1..])) == known + SetOf(HashesOf(a));
      if h in known { assert known + {h} == known; }
    }
  }

  /** The file after a batch, described without any index. */
  ghost function Stored(lines: seq<Line>, docs: seq<Doc>): seq<Line> {
    lines + LinesOf(Fresh(docs, Hashes(lines)))
  }

  lemma StoredHashes(lines: seq<Line>, docs: seq<Doc>)
    ensures Hashes(Stored(lines, docs)) == Hashes(lines) + SetOf(HashesOf(docs))
  {
    var added := Fresh(docs, Hashes(lines));
    FreshFacts(docs, Hashes(lines));
    HashesAppend(lines, LinesOf(added));
    HashesOfLines(added);
  }

  /** How the rounds are cut into batches does not matter, and sending a batch again changes nothing. */
  lemma BatchingIrrelevant(lines: seq<Line>, a: seq<Doc>, b: seq<Doc>)
    ensures Stored(lines, a + b) == Stored(Stored(lines, a), b)
    ensures Stored(Stored(lines, a), a) == Stored(lines, a)
  {
    StoredHashes(lines, a);
    FreshSplit(a, b, Hashes(lines));
    var added, more := Fresh(a, Hashes(lines)), Fresh(b, Hashes(lines) + SetOf(HashesOf(a)));
    assert LinesOf(added + more) == LinesOf(added) + LinesOf(more);
    FreshFacts(a, Hashes(Stored(lines, a)));
    var again := Fresh(a, Hashes(Stored(lines, a)));
    if again != [] { NonEmptyHashes(again); }
    assert Stored(lines, a) + LinesOf([]) == Stored(lines, a);
  }

  lemma StoredDuplicateFree(lines: seq<Line>, docs: seq<Doc>)
    requires DuplicateFree(lines)
    ensures DuplicateFree(Stored(lines, docs))
  {
    var added := Fresh(docs, Hashes(lines));
    FreshFacts(docs, Hashes(lines));
    var all := Stored(lines, docs);
    forall i, j | 0 <= i < j < |all| && all[i].Round? && all[j].Round? ensures all[i].hash != all[j].hash {
      if j >= |lines| {
        assert all[j].hash == added[j - |lines|].hash;
        if i < |lines| {
          assert all[i].hash in Hashes(lines);
        } else {
          assert all[i].hash == added[i - |lines|].hash;
        }
      }
    }
  }

  lemma StoreAgrees(d: Disk, slug: Slug, added: seq<Doc>, daemon: bool, other: Slug)
    requires Agrees(d, slug) && Agrees(d, other) && slug in d.index && (daemon ==> slug in d.cache)
    requires !daemon ==> slug !in d.cache
    ensures Agrees(StoreRounds(d, slug, added, daemon), other)
  {
    hide Hashes;
    HashesAppend(LinesAt(d, slug), LinesOf(added));
    HashesOfLines(added);
    var d' := StoreRounds(d, slug, added, daemon);
    assert SetOf(d'.index[slug]) == SetOf(d.index[slug]) + SetOf(HashesOf(added));
  }

  // ----- one request -----

  /** The file a request may change, and the rounds it tries to add. */
  ghost function Submitted(s: State, r: Request, slug: Slug): seq<Doc> {
    if r.op.Append? && r.op.slug == slug && UnderLease(s, r) && ValidBatch(slug, r.op.docs) then r.op.docs else []
  }

  ghost predicate FileInv(s: State, slug: Slug) {
    && Agrees(s.disk, slug)
    && DuplicateFree(LinesAt(s.disk, slug))
    && (slug in s.disk.committed ==> s.disk.committed[slug] in Hashes(LinesAt(s.disk, slug)))
    && (!s.daemon ==> s.disk.cache == map[])
  }

  lemma AppendStores(s: State, r: Request, slug: Slug, docs: seq<Doc>)
    requires FileInv(s, slug) && ValidBatch(slug, docs)
    ensures var (s', reply) := AppendStep(s, r, slug, docs);
      var added := Fresh(docs, Hashes(LinesAt(s.disk, slug)));
      && s'.daemon == s.daemon
      && LinesAt(s'.disk, slug) == Stored(LinesAt(s.disk, slug), docs)
      && (forall other | other != slug :: LinesAt(s'.disk, other) == LinesAt(s.disk, other))
      && (|| (reply.Written? && reply.written == |added| && reply.written + reply.duplicates == |docs|)
          || (reply == Refused && LacksCounts(s.board.quotas, slug)))
  {
    hide CreditQuota, Hashes, Seeded;
    KnownIsExact(s.disk, slug, s.daemon);
    FreshFacts(docs, Hashes(LinesAt(s.disk, slug)));
    assert LinesAt(s.disk, slug) + LinesOf([]) == LinesAt(s.disk, slug);
  }

  lemma AppendKeepsFiles(s: State, r: Request, slug: Slug, docs: seq<Doc>, other: Slug)
    requires FileInv(s, slug) && FileInv(s, other)
    ensures FileInv(AppendStep(s, r, slug, docs).0, other)
  {
    hide CreditQuota, Hashes, Seeded, DuplicateFree, Fresh, Known, Agrees, Touch, StoreRounds, LacksCounts, ValidBatch;
    if ValidBatch(slug, docs) {
      AppendStores(s, r, slug, docs);
      StoredDuplicateFree(LinesAt(s.disk, slug), docs);
      StoredHashes(LinesAt(s.disk, slug), docs);
      AppendAgrees(s, r, slug, docs, other);
    }
  }

  /** The file operations of an append: look up, then store, then possibly count towards a group sync. */
  lemma AppendDisk(s: State, r: Request, slug: Slug, docs: seq<Doc>)
    ensures var s' := AppendStep(s, r, slug, docs).0;
      var added := Fresh(docs, Known(s.disk, slug, s.daemon));
      var touched := Touch(s.disk, slug, s.daemon);
      var stored := StoreRounds(touched, slug, added, s.daemon);
      && s'.daemon == s.daemon
      && s'.disk == (if !ValidBatch(slug, docs) then s.disk
                     else if added == [] then touched
                     else if LacksCounts(s.board.quotas, slug) || !s.daemon then stored
                     else Commit(stored, slug, |added|))
  {
    hide CreditQuota, Known, Fresh, Touch, StoreRounds, ValidBatch, LacksCounts, Commit;
  }

  lemma AppendAgrees(s: State, r: Request, slug: Slug, docs: seq<Doc>, other: Slug)
    requires FileInv(s, slug) && FileInv(s, other)
    ensures var s' := AppendStep(s, r, slug, docs).0;
      Agrees(s'.disk, other) && s'.disk.committed == s.disk.committed && (!s.daemon ==> s'.disk.cache == map[])
  {
    hide AppendStep, Hashes, Seeded, DuplicateFree, Fresh, Known, ValidBatch, LacksCounts, SetOf, HashesOf;
    AppendDisk(s, r, slug, docs);
    TouchAgrees(s.disk, slug, other, s.daemon);
    TouchAgrees(s.disk, slug, slug, s.daemon);
    StoreAgrees(Touch(s.disk, slug, s.daemon), slug, Fresh(docs, Known(s.disk, slug, s.daemon)), s.daemon, other);
  }

  lemma ScheduleDisk(s: State, r: Request, accepted: set<Slug>)
    ensures var s' := Schedule(s, r, accepted).0;
      s'.daemon == s.daemon && (s'.disk == s.disk || exists slug :: s'.disk == Touch(s.disk, slug, s.daemon))
  {
    hide PickPrimary, PickSecondary, PickNormal, CountUnresolved, NodeTaken, SpreadsFirst, Touch;
  }

  /** Everything a request can do to the files, other than appending and acknowledging. */
  lemma DiskCases(s: State, r: Request)
    requires !r.op.Append? && !r.op.Ack?
    ensures var s' := Step(s, r).0;
      s'.daemon == s.daemon
      && (|| s'.disk == s.disk
          || (exists slug :: s'.disk == Touch(s.disk, slug, s.daemon))
          || (r.op.Done? && s'.disk == SyncGame(s.disk, r.op.slug)))
  {
    hide Schedule, Touch, LeasedStep, Filter, RunOrder;
    if r.op.Claims? { ScheduleDisk(s, r, r.op.accepted); }
    var key := WorkerClaim(s.board.claims, r.worker, SlugOf(r.op));
    if key.Some? { LeasedDisk(s, r, key.value); }
  }

  lemma LeasedDisk(s: State, r: Request, key: ClaimKey)
    requires !r.op.Append? && !r.op.Ack? && key in s.board.claims && key.slug == SlugOf(r.op)
    ensures var s' := LeasedStep(s, r, key).0;
      s'.daemon == s.daemon && s'.disk == if r.op.Done? then SyncGame(s.disk, r.op.slug) else s.disk
  {
    hide SyncGame, Reserved, Throttled, ReleaseNode, AfterSpecial, LocalTargets, Enqueue, Dequeue, AppendStep, AckStep;
  }

  lemma AppendIs(s: State, r: Request)
    requires r.op.Append?
    ensures Step(s, r) == (s, Refused)
      || (s.owner == Some(r.run) && WorkerClaim(s.board.claims, r.worker, r.op.slug).Some?
          && Step(s, r) == AppendStep(s, r, r.op.slug, r.op.docs))
    ensures s.owner == Some(r.run) && WorkerClaim(s.board.claims, r.worker, r.op.slug).Some? ==>
      Step(s, r) == AppendStep(s, r, r.op.slug, r.op.docs)
  {
  }

  lemma AckIs(s: State, r: Request)
    requires r.op.Ack?
    ensures Step(s, r) == (s, Refused) || Step(s, r) == AckStep(s, r.op.slug, r.op.hash)
  {
  }

  lemma AckKeepsFiles(s: State, acked: Slug, hash: Hash, slug: Slug)
    requires FileInv(s, acked) && FileInv(s, slug)
    ensures var s' := AckStep(s, acked, hash).0; FileInv(s', slug) && LinesAt(s'.disk, slug) == LinesAt(s.disk, slug)
  {
    hide Hashes, Seeded, DuplicateFree, SetOf;
    TouchAgrees(s.disk, acked, slug, s.daemon);
    KnownIsExact(s.disk, acked, s.daemon);
  }

  ghost predicate FilesInv(s: State) {
    forall slug :: FileInv(s, slug)
  }

  lemma TouchKeepsFiles(s: State, s': State, touched: Slug, slug: Slug)
    requires FileInv(s, touched) && FileInv(s, slug) && s'.daemon == s.daemon
    requires s'.disk == Touch(s.disk, touched, s.daemon)
    ensures FileInv(s', slug) && LinesAt(s'.disk, slug) == LinesAt(s.disk, slug)
  {
    hide Hashes, Seeded, DuplicateFree, Agrees, Known;
    TouchAgrees(s.disk, touched, slug, s.daemon);
  }

  lemma FileStep(s: State, r: Request, slug: Slug)
    requires FilesInv(s)
    ensures FileInv(Step(s, r).0, slug)
    ensures LinesAt(Step(s, r).0.disk, slug) == Stored(LinesAt(s.disk, slug), Submitted(s, r, slug))
  {
    hide Step, Touch, AppendStep, AckStep, FileInv, Stored, ValidBatch;
    assert Stored(LinesAt(s.disk, slug), []) == LinesAt(s.disk, slug) by { NothingStored(LinesAt(s.disk, slug)); }
    assert FileInv(s, slug);
    if r.op.Append? {
      AppendIs(s, r);
      assert FileInv(s, r.op.slug);
      AppendKeepsFiles(s, r, r.op.slug, r.op.docs, slug);
      if ValidBatch(r.op.slug, r.op.docs) {
        AppendStores(s, r, r.op.slug, r.op.docs);
      } else {
        InvalidBatch(s, r, r.op.slug, r.op.docs);
      }
    } else if r.op.Ack? {
      AckIs(s, r);
      assert FileInv(s, r.op.slug);
      AckKeepsFiles(s, r.op.slug, r.op.hash, slug);
    } else {
      DiskCases(s, r);
      var s' := Step(s, r).0;
      if touched :| s'.disk == Touch(s.disk, touched, s.daemon) {
        assert FileInv(s, touched);
        TouchKeepsFiles(s, s', touched, slug);
      } else {
        SameFiles(s, s', slug);
      }
    }
  }

  lemma NothingStored(lines: seq<Line>)
    ensures Stored(lines, []) == lines
  {
  }

  lemma InvalidBatch(s: State, r: Request, slug: Slug, docs: seq<Doc>)
    requires !ValidBatch(slug, docs)
    ensures AppendStep(s, r, slug, docs) == (s, Refused)
  {
  }

  lemma SameFiles(s: State, s': State, slug: Slug)
    requires FileInv(s, slug) && s'.daemon == s.daemon
    requires s'.disk.ndjson == s.disk.ndjson && s'.disk.index == s.disk.index && s'.disk.cache == s.disk.cache
    requires s'.disk.committed == s.disk.committed
    ensures FileInv(s', slug)
  {
  }

  lemma {:induction false} FilesAt(states: seq<State>, rs: seq<Request>, i: nat)
    requires Behavior(states, rs) && FilesInv(states[0]) && i < |states|
    ensures FilesInv(states[i])
    decreases i
  {
    hide Step, FileInv;
    if i > 0 {
      FilesAt(states, rs, i - 1);
      forall slug ensures FileInv(states[i], slug) {
        FileStep(states[i - 1], rs[i - 1], slug);
      }
    }
  }

  /** All rounds submitted for a game under a lease, in order. */
  ghost function AllSubmitted(states: seq<State>, rs: seq<Request>, slug: Slug, n: nat): seq<Doc>
    requires Behavior(states, rs) && n <= |rs|
    decreases n
  {
    if n == 0 then [] else AllSubmitted(states, rs, slug, n - 1) + Submitted(states[n - 1], rs[n - 1], slug)
  }

  /**
   In every reachable state a game's file is the first occurrences of everything submitted for it, whatever batches,
   repeats, shards and runs it came from; file, index and cache hold the same hashes, and the acknowledged recovery
   point is in the file.
   */
  lemma {:induction false} RoundFilesExact(states: seq<State>, rs: seq<Request>, slug: Slug, n: nat)
    requires Behavior(states, rs) && FilesInv(states[0]) && n <= |rs|
    ensures var d := states[n].disk; var lines := Get(d.ndjson, slug, []);
      && lines == Stored(LinesAt(states[0].disk, slug), AllSubmitted(states, rs, slug, n))
      && DuplicateFree(lines)
      && (slug in d.index ==> SetOf(d.index[slug]) == Hashes(lines))
      && (slug in d.cache ==> d.cache[slug] == Hashes(lines))
      && (slug in d.committed ==> d.committed[slug] in Hashes(lines))
    decreases n
  {
    hide Step, Hashes, Submitted, Stored;
    FilesAt(states, rs, n);
    assert FileInv(states[n], slug);
    NothingStored(LinesAt(states[0].disk, slug));
    if n > 0 {
      RoundFilesExact(states, rs, slug, n - 1);
      FilesAt(states, rs, n - 1);
      FileStep(states[n - 1], rs[n - 1], slug);
      BatchingIrrelevant(LinesAt(states[0].disk, slug), AllSubmitted(states, rs, slug, n - 1),
                         Submitted(states[n - 1], rs[n - 1], slug));
    }
  }

  /** The reply to a batch accounts for every round in it, and counts a round as written once over all shards. */
  lemma BatchAccounting(s: State, r: Request)
    requires FilesInv(s) && r.op.Append? && Step(s, r).1.Written?
    ensures var before, after := LinesAt(s.disk, r.op.slug), LinesAt(Step(s, r).0.disk, r.op.slug);
      var reply := Step(s, r).1;
      && reply.written + reply.duplicates == |r.op.docs|
      && |after| == |before| + reply.written
      && Hashes(after) == Hashes(before) + SetOf(HashesOf(r.op.docs))
  {
    hide Step, AppendStep, Hashes, FileInv;
    AppendIs(s, r);
    assert FileInv(s, r.op.slug);
    if ValidBatch(r.op.slug, r.op.docs) {
      AppendStores(s, r, r.op.slug, r.op.docs);
      FreshFacts(r.op.docs, Hashes(LinesAt(s.disk, r.op.slug)));
      StoredHashes(LinesAt(s.disk, r.op.slug), r.op.docs);
    } else {
      InvalidBatch(s, r, r.op.slug, r.op.docs);
    }
  }

  // ----- which batches and acknowledgements are accepted -----

  /** One to 25 rounds, each of the game named and with a hash of 64 digits or letters from a to f. */
  ghost predicate ProperBatch(slug: Slug, docs: seq<Doc>) {
    1 <= |docs| <= 25
    && forall d | d in docs :: d.game == slug && Hex64(d.hash)
  }

  lemma ProperIff(slug: Slug, docs: seq<Doc>)
    ensures ProperBatch(slug, docs) <==> ValidBatch(slug, docs)
  {
    hide IsHash, Hex64;
    forall d | d in docs ensures IsHash(d.hash) <==> Hex64(d.hash) { Hex64Is(d.hash); }
    assert forall i | 0 <= i < |docs| :: docs[i] in docs;
  }

  /** A batch under a lease is refused, and stores nothing, when it is improper; a proper one is stored with its rounds. */
  lemma ImproperBatchRefused(s: State, r: Request)
    requires FilesInv(s) && r.op.Append? && UnderLease(s, r)
    ensures var s' := Step(s, r).0;
      if ProperBatch(r.op.slug, r.op.docs) then
        forall d | d in r.op.docs :: d.hash in Hashes(LinesAt(s'.disk, r.op.slug))
      else Step(s, r) == (s, Refused)
  {
    hide Step, Hashes, FileInv, ValidBatch, ProperBatch;
    ProperIff(r.op.slug, r.op.docs);
    AppendIs(s, r);
    if ValidBatch(r.op.slug, r.op.docs) {
      FileStep(s, r, r.op.slug);
      StoredHashes(LinesAt(s.disk, r.op.slug), r.op.docs);
      forall d | d in r.op.docs ensures d.hash in SetOf(HashesOf(r.op.docs)) {
        var i :| 0 <= i < |r.op.docs| && r.op.docs[i] == d;
        assert HashesOf(r.op.docs)[i] == d.hash;
      }
    } else {
      InvalidBatch(s, r, r.op.slug, r.op.docs);
    }
  }

  /** An acknowledgement under a lease is accepted exactly when the round is in the file. */
  lemma AckAcceptedIff(s: State, r: Request)
    requires FilesInv(s) && r.op.Ack? && UnderLease(s, r)
    ensures Step(s, r).1 == Empty <==> r.op.hash in Hashes(LinesAt(s.disk, r.op.slug))
    ensures Step(s, r).1 in {Empty, Refused}
    ensures Step(s, r).0.disk.committed
         == if Step(s, r).1 == Empty then s.disk.committed[r.op.slug := r.op.hash] else s.disk.committed
  {
    hide Hashes, Seeded, FileInv, Known;
    assert FileInv(s, r.op.slug);
    KnownOf(s, r.op.slug);
  }

  lemma KnownOf(s: State, slug: Slug)
    requires FileInv(s, slug)
    ensures Known(s.disk, slug, s.daemon) == Hashes(LinesAt(s.disk, slug))
  {
    KnownIsExact(s.disk, slug, s.daemon);
  }

  ghost predicate Acknowledges(s: State, r: Request, slug: Slug) {
    r.op.Ack? && r.op.slug == slug && UnderLease(s, r) && r.op.hash in Hashes(LinesAt(s.disk, slug))
  }

  /** The round of a game that was acknowledged last, or what the history began with. */
  ghost function LastAcknowledged(states: seq<State>, rs: seq<Request>, slug: Slug, n: nat): Option<Hash>
    requires Behavior(states, rs) && n <= |rs|
    decreases n
  {
    if n == 0 then CommittedOf(states[0], slug)
    else if Acknowledges(states[n - 1], rs[n - 1], slug) then Some(rs[n - 1].op.hash)
    else LastAcknowledged(states, rs, slug, n - 1)
  }

  ghost function CommittedOf(s: State, slug: Slug): Option<Hash> {
    if slug in s.disk.committed then Some(s.disk.committed[slug]) else None
  }

  lemma CommittedStep(s: State, r: Request, slug: Slug)
    requires FilesInv(s)
    ensures CommittedOf(Step(s, r).0, slug)
         == if Acknowledges(s, r, slug) then Some(r.op.hash) else CommittedOf(s, slug)
  {
    hide Step, Hashes, FileInv, Touch, AppendStep;
    if r.op.Ack? {
      if UnderLease(s, r) { AckAcceptedIff(s, r); } else { NoLease(s, r); }
    } else if r.op.Append? {
      AppendIs(s, r);
      AppendCommits(s, r, r.op.slug, r.op.docs);
    } else {
      DiskCases(s, r);
      forall touched ensures Touch(s.disk, touched, s.daemon).committed == s.disk.committed {
        TouchCommits(s.disk, touched, s.daemon);
      }
    }
  }

  lemma NoLease(s: State, r: Request)
    requires r.op.Ack? && !UnderLease(s, r)
    ensures Step(s, r) == (s, Refused)
  {
  }

  lemma TouchCommits(d: Disk, slug: Slug, daemon: bool)
    ensures Touch(d, slug, daemon).committed == d.committed
  {
  }

  lemma AppendCommits(s: State, r: Request, slug: Slug, docs: seq<Doc>)
    ensures AppendStep(s, r, slug, docs).0.disk.committed == s.disk.committed
  {
    hide AppendStep, Known, Fresh, ValidBatch, LacksCounts, Seeded;
    AppendDisk(s, r, slug, docs);
  }

  /** The recovery point of a game is always the round acknowledged last, across runs. */
  lemma {:induction false} RecoveryPointIsLast(states: seq<State>, rs: seq<Request>, slug: Slug, n: nat)
    requires Behavior(states, rs) && FilesInv(states[0]) && n <= |rs|
    ensures CommittedOf(states[n], slug) == LastAcknowledged(states, rs, slug, n)
    decreases n
  {
    hide Step, FilesInv, Acknowledges;
    if n > 0 {
      RecoveryPointIsLast(states, rs, slug, n - 1);
      FilesAt(states, rs, n - 1);
      CommittedStep(states[n - 1], rs[n - 1], slug);
    }
  }

  // ----- the unsynced tail of the daemon -----

  ghost predicate TailInv(d: Disk, slug: Slug) {
    && |LinesAt(d, slug)| == Get(d.durable, slug, 0) + Get(d.unsynced, slug, 0)
    && Get(d.unsynced, slug, 0) < DATA_FSYNC_EVERY
  }

  /** An append keeps the tail bounded exactly when it does not fail after writing. */
  lemma AppendTailIff(s: State, r: Request, slug: Slug, docs: seq<Doc>)
    requires s.daemon && FileInv(s, slug) && TailInv(s.disk, slug) && ValidBatch(slug, docs)
    ensures TailInv(AppendStep(s, r, slug, docs).0.disk, slug)
       <==> !(LacksCounts(s.board.quotas, slug) && Fresh(docs, Hashes(LinesAt(s.disk, slug))) != [])
  {
    hide AppendStep, Hashes, LacksCounts, ValidBatch, DuplicateFree, Fresh, Known, Touch, StoreRounds, Commit, TailInv;
    AppendDisk(s, r, slug, docs);
    KnownIsExact(s.disk, slug, s.daemon);
    var touched := Touch(s.disk, slug, true);
    TouchTail(s.disk, slug, slug, true);
    StoredTail(touched, slug, Fresh(docs, Known(s.disk, slug, true)), slug);
  }

  lemma TouchTail(d: Disk, touched: Slug, slug: Slug, daemon: bool)
    ensures TailInv(Touch(d, touched, daemon), slug) == TailInv(d, slug)
  {
    hide Seeded, Known;
  }

  /** Storing new rounds breaks the tail of their file until they are counted. */
  lemma StoredTail(d: Disk, slug: Slug, added: seq<Doc>, other: Slug)
    requires TailInv(d, other)
    ensures TailInv(StoreRounds(d, slug, added, true), other) <==> other != slug || added == []
    ensures TailInv(Commit(StoreRounds(d, slug, added, true), slug, |added|), other)
  {
    hide HashesOf, Commit;
    CommitTail(StoreRounds(d, slug, added, true), slug, |added|, other);
  }

  lemma CommitTail(d: Disk, slug: Slug, count: nat, other: Slug)
    requires |LinesAt(d, other)| == Get(d.durable, other, 0) + Get(d.unsynced, other, 0) + if other == slug then count else 0
    requires Get(d.unsynced, other, 0) < DATA_FSYNC_EVERY
    ensures TailInv(Commit(d, slug, count), other)
  {
  }

  lemma AppendTailOther(s: State, r: Request, slug: Slug, docs: seq<Doc>, other: Slug)
    requires other != slug && TailInv(s.disk, other) && s.daemon
    ensures TailInv(AppendStep(s, r, slug, docs).0.disk, other)
  {
    hide AppendStep, Known, LacksCounts, ValidBatch, Fresh, Touch, StoreRounds, Commit, TailInv;
    AppendDisk(s, r, slug, docs);
    TouchTail(s.disk, slug, other, true);
    StoredTail(Touch(s.disk, slug, true), slug, Fresh(docs, Known(s.disk, slug, true)), other);
  }

  /** An append that writes new rounds of a game and then fails, because the game's quota record has no counts. */
  ghost predicate FailsAfterWriting(s: State, r: Request, slug: Slug) {
    && r.op.Append? && r.op.slug == slug && UnderLease(s, r)
    && ProperBatch(slug, r.op.docs) && Countless(s.board, slug)
    && exists d | d in r.op.docs :: d.hash !in Hashes(LinesAt(s.disk, slug))
  }

  /** The game was accepted, or a node gave it up, and no report has given it counts since. */
  ghost predicate Countless(b: Board, slug: Slug) {
    slug in b.quotas && b.quotas[slug].frozen.None? && (b.quotas[slug].accepted || b.quotas[slug].unavailableNodes != {})
  }

  lemma {:induction false} NewIff(docs: seq<Doc>, known: set<Hash>)
    ensures Fresh(docs, known) != [] <==> exists d | d in docs :: d.hash !in known
    decreases docs
  {
    if docs != [] {
      assert docs == [docs[0]] + docs[1..];
      NewIff(docs[1..], known);
    }
  }

  lemma FailsIff(s: State, r: Request, slug: Slug)
    ensures FailsAfterWriting(s, r, slug) <==>
      && r.op.Append? && r.op.slug == slug && UnderLease(s, r)
      && ValidBatch(slug, r.op.docs) && LacksCounts(s.board.quotas, slug)
      && Fresh(r.op.docs, Hashes(LinesAt(s.disk, slug))) != []
  {
    hide ProperBatch, ValidBatch, Fresh, Hashes, UnderLease;
    if r.op.Append? {
      ProperIff(slug, r.op.docs);
      NewIff(r.op.docs, Hashes(LinesAt(s.disk, slug)));
    }
  }

  /** A batch under a lease is answered as written exactly when it is proper and does not fail after writing. */
  lemma BatchWrittenIff(s: State, r: Request)
    requires FilesInv(s) && r.op.Append? && UnderLease(s, r)
    ensures Step(s, r).1.Written? <==> ProperBatch(r.op.slug, r.op.docs) && !FailsAfterWriting(s, r, r.op.slug)
    ensures !Step(s, r).1.Written? ==> Step(s, r).1 == Refused
  {
    hide Step, ProperBatch, FailsAfterWriting, Hashes, FileInv, ValidBatch, LacksCounts, Fresh, Known, Touch, StoreRounds,
      CreditQuota, Commit;
    ProperIff(r.op.slug, r.op.docs);
    FailsIff(s, r, r.op.slug);
    AppendIs(s, r);
    assert FileInv(s, r.op.slug);
    FileInvKnown(s, r.op.slug);
  }

  lemma FileInvKnown(s: State, slug: Slug)
    requires FileInv(s, slug)
    ensures Known(s.disk, slug, s.daemon) == Hashes(LinesAt(s.disk, slug))
  {
    hide Hashes, Known, Seeded, DuplicateFree;
    KnownIsExact(s.disk, slug, s.daemon);
  }

  /**
   When what is written reaches the disk: in the daemon as soon as 25 lines of the game are waiting, and not before; without
   it at once.
   */
  lemma GroupSync(s: State, r: Request)
    requires FilesInv(s) && r.op.Append? && Step(s, r).1.Written? && Step(s, r).1.written > 0
    requires s.daemon ==> TailInv(s.disk, r.op.slug)
    ensures var before, after := LinesAt(s.disk, r.op.slug), LinesAt(Step(s, r).0.disk, r.op.slug);
      var durable := Get(s.disk.durable, r.op.slug, 0);
      Get(Step(s, r).0.disk.durable, r.op.slug, 0)
      == if s.daemon && |before| - durable + Step(s, r).1.written < 25 then durable else |after|
  {
    hide Step, AppendStep, Hashes, FileInv, Known, LacksCounts, ValidBatch, Fresh, Touch, StoreRounds, Commit;
    AppendIs(s, r);
    assert FileInv(s, r.op.slug);
    var slug, docs := r.op.slug, r.op.docs;
    AppendDisk(s, r, slug, docs);
    FileInvKnown(s, slug);
    if !ValidBatch(slug, docs) { InvalidBatch(s, r, slug, docs); }
    AppendStores(s, r, slug, docs);
    WrittenHasCounts(s, r, slug, docs);
    var added, touched := Fresh(docs, Known(s.disk, slug, s.daemon)), Touch(s.disk, slug, s.daemon);
    TouchSynced(s.disk, slug, s.daemon);
    StoreSynced(touched, slug, added, s.daemon);
  }

  lemma WrittenHasCounts(s: State, r: Request, slug: Slug, docs: seq<Doc>)
    requires ValidBatch(slug, docs) && AppendStep(s, r, slug, docs).1.Written?
    ensures Fresh(docs, Known(s.disk, slug, s.daemon)) != [] ==> !LacksCounts(s.board.quotas, slug)
  {
    hide ValidBatch, Fresh, Known, Touch, StoreRounds, CreditQuota, Commit, LacksCounts;
  }

  lemma TouchSynced(d: Disk, slug: Slug, daemon: bool)
    ensures var d' := Touch(d, slug, daemon);
      d'.durable == d.durable && d'.unsynced == d.unsynced && LinesAt(d', slug) == LinesAt(d, slug)
  {
    hide Seeded, Known;
  }

  lemma StoreSynced(d: Disk, slug: Slug, added: seq<Doc>, daemon: bool)
    requires added != []
    ensures var stored := StoreRounds(d, slug, added, daemon); var lines := LinesAt(stored, slug);
      && (!daemon ==> Get(stored.durable, slug, 0) == |lines|)
      && (daemon ==>
            var d' := Commit(stored, slug, |added|);
            && LinesAt(d', slug) == lines
            && Get(d'.durable, slug, 0)
               == if Get(d.unsynced, slug, 0) + |added| < 25 then Get(d.durable, slug, 0) else |lines|)
  {
    hide HashesOf;
  }

  lemma TailStep(s: State, r: Request, slug: Slug)
    requires s.daemon && FilesInv(s) && TailInv(s.disk, slug)
    ensures TailInv(Step(s, r).0.disk, slug) <==> !FailsAfterWriting(s, r, slug)
    ensures Step(s, r).0.daemon
    ensures r.op.Done? && r.op.slug == slug && Step(s, r).1 == Empty ==>
      Get(Step(s, r).0.disk.durable, slug, 0) == |LinesAt(Step(s, r).0.disk, slug)|
  {
    hide Step, AppendStep, FileInv, LacksCounts, Fresh, Hashes, ValidBatch, FailsAfterWriting;
    FailsIff(s, r, slug);
    if r.op.Append? {
      AppendIs(s, r);
      assert FileInv(s, r.op.slug);
      AppendDisk(s, r, r.op.slug, r.op.docs);
      if !ValidBatch(r.op.slug, r.op.docs) {
        InvalidBatch(s, r, r.op.slug, r.op.docs);
      } else if r.op.slug == slug {
        AppendTailIff(s, r, slug, r.op.docs);
      } else {
        AppendTailOther(s, r, r.op.slug, r.op.docs, slug);
      }
    } else if r.op.Ack? {
      AckIs(s, r);
    } else {
      DiskCases(s, r);
      if r.op.Done? { DoneIs(s, r); }
    }
  }

  lemma DoneIs(s: State, r: Request)
    requires r.op.Done?
    ensures Step(s, r) == (s, Refused) || (Step(s, r).0.disk == SyncGame(s.disk, r.op.slug) && Step(s, r).1 == Empty)
  {
  }

  lemma {:induction false} TailAt(states: seq<State>, rs: seq<Request>, slug: Slug, n: nat)
    requires Behavior(states, rs) && FilesInv(states[0]) && n <= |rs| && states[0].daemon
    requires TailInv(states[0].disk, slug)
    requires forall j {:trigger rs[j]} | 0 <= j < n :: !FailsAfterWriting(states[j], rs[j], slug)
    ensures TailInv(states[n].disk, slug) && states[n].daemon
    decreases n
  {
    hide Step, FailsAfterWriting, FilesInv, TailInv;
    if n > 0 {
      TailAt(states, rs, slug, n - 1);
      FilesAt(states, rs, n - 1);
      TailStep(states[n - 1], rs[n - 1], slug);
    }
  }

  /** At most 24 lines of a game's file are not known to be on disk, and the daemon counts exactly those as pending. */
  ghost predicate TailBounded(d: Disk, slug: Slug) {
    && |Get(d.ndjson, slug, [])| - Get(d.durable, slug, 0) == Get(d.unsynced, slug, 0)
    && Get(d.unsynced, slug, 0) <= 24
  }

  /** In the daemon the tail is bounded in every state of a history if and only if no append fails after writing. */
  lemma UnsyncedTailBounded(states: seq<State>, rs: seq<Request>, slug: Slug)
    requires Behavior(states, rs) && FilesInv(states[0]) && states[0].daemon && TailInv(states[0].disk, slug)
    ensures (forall i | 0 <= i < |states| :: TailBounded(states[i].disk, slug))
       <==> (forall j {:trigger rs[j]} | 0 <= j < |rs| :: !FailsAfterWriting(states[j], rs[j], slug))
  {
    hide Step, FailsAfterWriting, FilesInv;
    if forall j {:trigger rs[j]} | 0 <= j < |rs| :: !FailsAfterWriting(states[j], rs[j], slug) {
      forall i | 0 <= i < |states| ensures TailBounded(states[i].disk, slug) { TailAt(states, rs, slug, i); }
    }
    if forall i | 0 <= i < |states| :: TailBounded(states[i].disk, slug) { NoFailureUpTo(states, rs, slug, |rs|); }
  }

  lemma {:induction false} NoFailureUpTo(states: seq<State>, rs: seq<Request>, slug: Slug, n: nat)
    requires Behavior(states, rs) && FilesInv(states[0]) && states[0].daemon && TailInv(states[0].disk, slug) && n <= |rs|
    requires forall i | 0 <= i < |states| :: TailBounded(states[i].disk, slug)
    ensures forall j {:trigger rs[j]} | 0 <= j < n :: !FailsAfterWriting(states[j], rs[j], slug)
    decreases n
  {
    hide Step, FailsAfterWriting, FilesInv;
    if n > 0 {
      NoFailureUpTo(states, rs, slug, n - 1);
      TailAt(states, rs, slug, n - 1);
      FilesAt(states, rs, n - 1);
      TailStep(states[n - 1], rs[n - 1], slug);
      assert TailBounded(states[n].disk, slug);
    }
  }

  /** As long as no append failed after writing, giving a lease back leaves nothing of its game unsynced. */
  lemma ReturnedLeasesAreSynced(states: seq<State>, rs: seq<Request>, slug: Slug, n: nat)
    requires Behavior(states, rs) && FilesInv(states[0]) && n < |rs| && states[0].daemon && TailInv(states[0].disk, slug)
    requires forall j {:trigger rs[j]} | 0 <= j < n :: !FailsAfterWriting(states[j], rs[j], slug)
    requires rs[n].op.Done? && rs[n].op.slug == slug && Step(states[n], rs[n]).1 == Empty
    ensures var d := states[n + 1].disk; Get(d.durable, slug, 0) == |Get(d.ndjson, slug, [])|
  {
    hide Step, FailsAfterWriting, FilesInv, TailInv;
    TailAt(states, rs, slug, n);
    FilesAt(states, rs, n);
    TailStep(states[n], rs[n], slug);
  }
}
