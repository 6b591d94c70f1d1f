/**
 Workers that report what they find in the round file: the coordinator's counts are then exactly the file's, and the file
 never outgrows the target or what it held when the run began.
 */
module RecountedQuota {
  import opened Base
  import opened CoordinatorTypes
  import opened CoordinatorSteps
  import opened QuotaSafety
  import opened LeaseSafety
  import opened ReservedSeats
  import opened ReservedAppends
  import RoundFiles
  import Capture
  import QuotaProtocol

  // ----- the rounds of a mode in a file -----

  function FileCount(lines: seq<Line>, mode: Mode): nat {
    if lines == [] then 0
    else
      FileCount(lines[..|lines| - 1], mode)
      + if lines[|lines| - 1].Round? && lines[|lines| - 1].buy == mode then 1 else 0
  }

  lemma {:induction false} FileCountAppend(lines: seq<Line>, docs: seq<Doc>, mode: Mode)
    ensures FileCount(lines + LinesOf(docs), mode) == FileCount(lines, mode) + CountMode(docs, mode)
    decreases docs
  {
    if docs == [] {
      assert lines + LinesOf(docs) == lines;
    } else {
      var n := |docs| - 1;
      var front, last := docs[..n], docs[n];
      assert docs == front + [last];
      CountModeAppend(front, [last], mode);
      FileCountAppend(lines, front, mode);
      var all := lines + LinesOf(docs);
      assert all[..|all| - 1] == lines + LinesOf(front);
      assert all[|all| - 1] == Round(last.hash, last.buy);
    }
  }

  /** The documents that the client reads from a file; a line without a readable hash is none. */
  function DocumentsOf(lines: seq<Line>): seq<Capture.Document> {
    if lines == [] then []
    else
      DocumentsOf(lines[..|lines| - 1])
      + (match lines[|lines| - 1] case Round(hash, buy) => [Capture.Document(hash, buy, false)] case Opaque => [])
  }

  lemma {:induction false} RecountOfFile(lines: seq<Line>, mode: Mode)
    requires RoundFiles.DuplicateFree(lines)
    ensures var modes := Capture.LastModes(DocumentsOf(lines));
      modes.Keys == Hashes(lines) && |Capture.HashesOf(modes, mode)| == FileCount(lines, mode)
    decreases lines
  {
    if lines == [] {
      assert Capture.HashesOf(map[], mode) == {};
    } else {
      var n := |lines| - 1;
      var front, last := lines[..n], lines[n];
      assert lines == front + [last];
      RecountOfFile(front, mode);
      RoundFiles.HashesAppend(front, [last]);
      match last
      case Opaque =>
        assert Hashes([last]) == {};
        assert DocumentsOf(lines) == DocumentsOf(front);
      case Round(hash, buy) =>
        assert Hashes([last]) == {hash};
        var docs := DocumentsOf(front);
        assert DocumentsOf(lines) == docs + [Capture.Document(hash, buy, false)];
        LastModesNext(docs, Capture.Document(hash, buy, false));
        NewToFront(lines);
        Capture.Moved(Capture.LastModes(docs), hash, buy, mode);
    }
  }

  lemma LastModesNext(docs: seq<Capture.Document>, last: Capture.Document)
    requires !last.testOnly
    ensures Capture.LastModes(docs + [last]) == Capture.LastModes(docs)[last.hash := last.mode]
  {
    assert (docs + [last])[..|docs|] == docs;
  }

  lemma NewToFront(lines: seq<Line>)
    requires lines != [] && lines[|lines| - 1].Round? && RoundFiles.DuplicateFree(lines)
    ensures lines[|lines| - 1].hash !in Hashes(lines[..|lines| - 1])
  {
  }

  /** The report of a worker that recounts the file it restored holds, for every mode asked for, the file's rounds. */
  method ReportOfFile(lines: seq<Line>, targets: map<Mode, int>) returns (report: map<Mode, int>)
    requires RoundFiles.DuplicateFree(lines)
    ensures report.Keys == targets.Keys && forall m | m in targets :: report[m] == FileCount(lines, m)
  {
    var counts := Capture.Recount(DocumentsOf(lines));
    report := Capture.CountsForTargets(counts, targets);
    forall m | m in targets ensures report[m] == FileCount(lines, m) { RecountOfFile(lines, m); }
  }

  // ----- the file before the first report -----

  ghost function FileOf(s: State, slug: Slug): seq<Line> {
    RoundFiles.LinesAt(s.disk, slug)
  }

  lemma AcceptedStays(s: State, r: Request, slug: Slug)
    requires !r.op.Begin? && Get(s.board.quotas, slug, NO_QUOTA).accepted
    ensures Get(Step(s, r).0.board.quotas, slug, NO_QUOTA).accepted
  {
    hide ClaimStep, LeasedStep;
    var key := WorkerClaim(s.board.claims, r.worker, SlugOf(r.op));
    if r.op.Claims? {
      AcceptedInClaim(s, r, slug);
    } else if key.Some? && s.owner == Some(r.run) {
      AcceptedInLease(s, r, key.value, slug);
    }
  }

  lemma AcceptedInClaim(s: State, r: Request, slug: Slug)
    requires r.op.Claims? && Get(s.board.quotas, slug, NO_QUOTA).accepted
    ensures Get(ClaimStep(s, r, r.op.accepted).0.board.quotas, slug, NO_QUOTA).accepted
  {
    PickEases(s.board, s.modeGames, r.op.accepted, r.now, slug);
    PickNormalQuotas(PickPrimary(s.board, s.modeGames, r.op.accepted, r.now).0, s.games, s.modeGames, r.op.accepted, r.now);
    ClaimQuotas(s, r, r.op.accepted);
    hide ClaimStep, PickPrimary;
  }

  lemma AcceptedInLease(s: State, r: Request, key: ClaimKey, slug: Slug)
    requires key in s.board.claims && Get(s.board.quotas, slug, NO_QUOTA).accepted
    ensures Get(LeasedStep(s, r, key).0.board.quotas, slug, NO_QUOTA).accepted
  {
    hide ReservationOf, LocalTargets, ValidReport, Known, StoreRounds, Touch, Commit, ValidBatch, Credit, AllMet, Fresh,
      Finished, SyncGame, Throttled, Evicted, Evict, PermitStep, AckStep, Raised;
    if r.op.Permits? { PermitBoard(s, r, r.op.slug, r.op.key, r.op.full); }
    if r.op.Ack? { AckBoard(s, r.op.slug, r.op.hash); }
  }

  /** Rounds of the run have reached the file only where the record has counts, or after the game was accepted. */
  ghost predicate Untouched(s: State, slug: Slug, start: seq<Line>) {
    FileOf(s, slug) == start || HasCounts(s.board, slug) || Get(s.board.quotas, slug, NO_QUOTA).accepted
  }

  lemma CountsStay(s: State, r: Request, slug: Slug)
    requires !r.op.Begin? && HasCounts(s.board, slug)
    ensures HasCounts(Step(s, r).0.board, slug) || Get(Step(s, r).0.board.quotas, slug, NO_QUOTA).accepted
  {
    hide Step, Credit, Reserved, TakesReport;
    RecordCases(s, r, slug);
    if TakesReport(s, r, slug) { ReservedSome(s, r, slug); }
  }

  lemma ReservedSome(s: State, r: Request, slug: Slug)
    requires TakesReport(s, r, slug)
    ensures var q := Get(s.board.quotas, slug, NO_QUOTA);
      Reserved(q, r.worker, r.op.counts, r.op.targets, s.topology.maxShards).frozen.Some?
  {
  }

  /** What every append of the run meets, given that workers reserve first and games are accepted alone. */
  ghost predicate AppendsFindCounts(s: State, r: Request, slug: Slug) {
    Stores(s, r, slug) ==> HasCounts(s.board, slug)
  }

  lemma UntouchedStep(s: State, r: Request, slug: Slug, start: seq<Line>)
    requires RoundFiles.FilesInv(s) && Untouched(s, slug, start) && !r.op.Begin? && AppendsFindCounts(s, r, slug)
    ensures Untouched(Step(s, r).0, slug, start)
  {
    hide Step, RoundFiles.FileInv, HasCounts, ValidBatch, RoundFiles.Stored;
    RoundFiles.FileStep(s, r, slug);
    RoundFiles.NothingStored(FileOf(s, slug));
    if HasCounts(s.board, slug) { CountsStay(s, r, slug); }
    if Get(s.board.quotas, slug, NO_QUOTA).accepted { AcceptedStays(s, r, slug); }
  }

  /** The conduct of workers and of the checker of accepted games that the results below need. */
  ghost predicate Conduct(states: seq<State>, rs: seq<Request>)
    requires Behavior(states, rs)
  {
    forall j {:trigger rs[j]} | 0 <= j < |rs| ::
      GivesBack(rs[j]) && !rs[j].op.Begin? && AcceptsAlone(states[j], rs[j]) && ReservesFirst(states, rs, j)
  }

  lemma FindsCounts(states: seq<State>, rs: seq<Request>, slug: Slug, j: nat)
    requires Behavior(states, rs) && states[0].board == Board(map[], map[]) && j < |rs| && Conduct(states, rs)
    requires slug in states[j].modeGames
    ensures AppendsFindCounts(states[j], rs[j], slug)
  {
    hide Step, AcceptsAlone, GivesBack, ReservedUnder, ValidBatch;
    if Stores(states[j], rs[j], slug) {
      assert ReservesFirst(states, rs, j);
      var key := WorkerClaim(states[j].board.claims, rs[j].worker, slug).value;
      CountsAt(states, rs, key, j);
    }
  }

  lemma {:induction false} SameModeGames(states: seq<State>, rs: seq<Request>, n: nat)
    requires Behavior(states, rs) && states[0].board == Board(map[], map[]) && n <= |rs| && Conduct(states, rs)
    ensures states[n].modeGames == states[0].modeGames
    decreases n
  {
    hide Step, AcceptsAlone, GivesBack, ReservesFirst, LeaseInv, AcceptedAlone;
    if n > 0 {
      SameModeGames(states, rs, n - 1);
      AloneAt(states, rs, n - 1);
      var s := states[n - 1];
      forall k ensures CountsInv(s.board, s.modeGames, k, false) {
        CountsAt(states, rs, k, n - 1);
        Weaken(s.board, s.modeGames, k, ReservedUnder(states, rs, k, n - 1), false);
      }
      var any := Primary("");
      CountsAt(states, rs, any, n - 1);
      StepCounts(s, rs[n - 1], any, ReservedUnder(states, rs, any, n), ReservedUnder(states, rs, any, n - 1));
    }
  }

  lemma {:induction false} UntouchedAt(states: seq<State>, rs: seq<Request>, slug: Slug, n: nat)
    requires Behavior(states, rs) && states[0].board == Board(map[], map[]) && n <= |rs| && Conduct(states, rs)
    requires RoundFiles.FilesInv(states[0]) && slug in states[0].modeGames
    ensures Untouched(states[n], slug, FileOf(states[0], slug))
    decreases n
  {
    hide Step, RoundFiles.FilesInv, AppendsFindCounts, GivesBack, AcceptsAlone, ReservesFirst;
    if n > 0 {
      UntouchedAt(states, rs, slug, n - 1);
      RoundFiles.FilesAt(states, rs, n - 1);
      SameModeGames(states, rs, n - 1);
      FindsCounts(states, rs, slug, n - 1);
      NoBegin(states, rs, n - 1);
      UntouchedStep(states[n - 1], rs[n - 1], slug, FileOf(states[0], slug));
    }
  }

  // ----- the counts are the file's -----

  /** The known count of a mode is the file's, and with what is promised it stays within the target or what `base` was. */
  ghost predicate CountsExactly(s: State, slug: Slug, mode: Mode, base: nat) {
    RecordOf(s.board, slug).Some? && mode in RecordOf(s.board, slug).value.targets ==>
      var f, stored := RecordOf(s.board, slug).value, FileCount(FileOf(s, slug), mode);
      && Get(f.counts, mode, 0) == stored
      && stored + Outstanding(f.reservations, mode) <= Max(f.targets[mode], base)
  }

  lemma {:induction false} CreditCounts(f: Frozen, worker: Worker, docs: seq<Doc>, mode: Mode)
    ensures Get(Credit(f, worker, docs).counts, mode, 0) == Get(f.counts, mode, 0) + CountMode(docs, mode)
    decreases docs
  {
    if docs != [] { CreditCounts(CreditOne(f, worker, docs[0].buy), worker, docs[1..], mode); }
  }

  lemma StoredCount(s: State, r: Request, slug: Slug, mode: Mode)
    requires RoundFiles.FilesInv(s)
    ensures var before, after := FileOf(s, slug), FileOf(Step(s, r).0, slug);
      if Stores(s, r, slug) then
        FileCount(after, mode) == FileCount(before, mode) + NewRounds(s, slug, r.op.docs, mode)
      else after == before
  {
    hide Step, RoundFiles.FileInv, ValidBatch, Fresh;
    assert RoundFiles.FileInv(s, slug);
    RoundFiles.FileStep(s, r, slug);
    RoundFiles.NothingStored(FileOf(s, slug));
    if Stores(s, r, slug) {
      QuotaProtocol.KnownInFile(s, slug);
      FileCountAppend(FileOf(s, slug), Fresh(r.op.docs, Hashes(FileOf(s, slug))), mode);
    }
  }

  /** A report that counts what is in the file, or less once the game has a record. */
  ghost predicate ReportsStored(s: State, r: Request, slug: Slug, mode: Mode, base: nat) {
    TakesReport(s, r, slug) && mode in r.op.targets ==>
      && ReportOf(r, mode) <= FileCount(FileOf(s, slug), mode)
      && (RecordOf(s.board, slug).None? ==> ReportOf(r, mode) == FileCount(FileOf(s, slug), mode) == base)
  }

  lemma ExactStep(s: State, r: Request, slug: Slug, mode: Mode, base: nat)
    requires RoundFiles.FilesInv(s) && CountsExactly(s, slug, mode, base) && !r.op.Begin? && mode != 0
    requires Disciplined(s, r, slug, mode) && ReportsStored(s, r, slug, mode, base)
    ensures CountsExactly(Step(s, r).0, slug, mode, base)
  {
    hide Step, Credit, Reserved, Known, Fresh, Outstanding, FileCount, ValidBatch, UnderLease, RoundFiles.FilesInv, Clamped,
      ValidReport, Loses;
    StoredCount(s, r, slug, mode);
    RecordCases(s, r, slug);
    var f, f' := RecordOf(s.board, slug), RecordOf(Step(s, r).0.board, slug);
    if TakesReport(s, r, slug) {
      ReservedExactly(s, r, slug, mode, base);
    } else if Stores(s, r, slug) && f.Some? {
      var added := Fresh(r.op.docs, Known(s.disk, slug, s.daemon));
      CreditConserves(f.value, r.worker, added, mode);
      CreditCounts(f.value, r.worker, added, mode);
    } else if f.Some? && f'.Some? && f' != f {
      OutstandingDrop(f.value.reservations, Loses(s, r, slug), mode);
    }
  }

  lemma ReservedExactly(s: State, r: Request, slug: Slug, mode: Mode, base: nat)
    requires TakesReport(s, r, slug) && CountsExactly(s, slug, mode, base) && mode != 0
    requires ReportsStored(s, r, slug, mode, base)
    ensures var f' := Reserved(Get(s.board.quotas, slug, NO_QUOTA), r.worker, r.op.counts, r.op.targets,
                               s.topology.maxShards).frozen;
      f'.Some? && (mode in f'.value.targets ==>
        var stored := FileCount(FileOf(s, slug), mode);
        && Get(f'.value.counts, mode, 0) == stored
        && stored + Outstanding(f'.value.reservations, mode) <= Max(f'.value.targets[mode], base))
  {
    hide Outstanding, FileCount, ReservationOf, UnderLease;
    ReserveCommits(Get(s.board.quotas, slug, NO_QUOTA), r.worker, r.op.counts, r.op.targets, s.topology.maxShards, mode);
    NothingPromised(mode);
  }

  lemma NothingPromised(mode: Mode)
    ensures Outstanding(map[], mode) == 0
  {
  }

  // ----- whole runs -----

  /** A worker reports, for every mode asked for, the rounds of the file as it was when the worker restored it. */
  ghost predicate RecountsFile(states: seq<State>, rs: seq<Request>, slug: Slug, mode: Mode, j: nat)
    requires Behavior(states, rs) && j < |rs|
  {
    TakesReport(states[j], rs[j], slug) && mode in rs[j].op.targets ==>
      exists u: nat :: u <= j && ReportOf(rs[j], mode) == FileCount(FileOf(states[u], slug), mode)
  }

  lemma {:induction false} FileCountGrows(states: seq<State>, rs: seq<Request>, slug: Slug, mode: Mode, u: nat, j: nat)
    requires Behavior(states, rs) && RoundFiles.FilesInv(states[0]) && u <= j <= |rs|
    ensures FileCount(FileOf(states[u], slug), mode) <= FileCount(FileOf(states[j], slug), mode)
    decreases j
  {
    hide Step, RoundFiles.FilesInv, Stores, FileCount;
    if u < j {
      FileCountGrows(states, rs, slug, mode, u, j - 1);
      RoundFiles.FilesAt(states, rs, j - 1);
      StoredCount(states[j - 1], rs[j - 1], slug, mode);
    }
  }

  /** So what it reports is stored, and is what the run began with when the game has no record yet. */
  lemma RecountIsStored(states: seq<State>, rs: seq<Request>, slug: Slug, mode: Mode, j: nat)
    requires Behavior(states, rs) && states[0].board == Board(map[], map[]) && j < |rs| && Conduct(states, rs)
    requires RoundFiles.FilesInv(states[0]) && RecountsFile(states, rs, slug, mode, j)
    ensures ReportsStored(states[j], rs[j], slug, mode, FileCount(FileOf(states[0], slug), mode))
  {
    hide Step, RoundFiles.FilesInv, FileCount, AcceptsAlone, GivesBack, ReservesFirst, ReservedUnder, BoardInv;
    if TakesReport(states[j], rs[j], slug) && mode in rs[j].op.targets {
      var u: nat :| u <= j && ReportOf(rs[j], mode) == FileCount(FileOf(states[u], slug), mode);
      FileCountGrows(states, rs, slug, mode, u, j);
      FileCountGrows(states, rs, slug, mode, 0, u);
      if RecordOf(states[j].board, slug).None? {
        var key := WorkerClaim(states[j].board.claims, rs[j].worker, slug).value;
        AloneAt(states, rs, j);
        LeaseIsNotAccepted(states[j].board, rs[j].worker, slug);
        CountsAt(states, rs, key, j);
        SameModeGames(states, rs, j);
        UntouchedAt(states, rs, slug, j);
      }
    }
  }

  lemma NoBegin(states: seq<State>, rs: seq<Request>, j: nat)
    requires Behavior(states, rs) && j < |rs| && Conduct(states, rs)
    ensures !rs[j].op.Begin?
  {
    hide Step, AcceptsAlone, GivesBack, ReservesFirst;
  }

  lemma {:induction false} ExactAt(states: seq<State>, rs: seq<Request>, slug: Slug, mode: Mode, i: nat)
    requires Behavior(states, rs) && states[0].board == Board(map[], map[]) && i <= |rs| && Conduct(states, rs) && mode != 0
    requires RoundFiles.FilesInv(states[0])
    requires forall j {:trigger rs[j]} | 0 <= j < |rs| :: Disciplined(states[j], rs[j], slug, mode)
    requires forall j | 0 <= j < |rs| :: RecountsFile(states, rs, slug, mode, j)
    ensures CountsExactly(states[i], slug, mode, FileCount(FileOf(states[0], slug), mode))
    decreases i
  {
    hide Step, RoundFiles.FilesInv, FileCount, Disciplined, RecountsFile, ReportsStored, Conduct;
    if i > 0 {
      ExactAt(states, rs, slug, mode, i - 1);
      RoundFiles.FilesAt(states, rs, i - 1);
      NoBegin(states, rs, i - 1);
      RecountIsStored(states, rs, slug, mode, i - 1);
      ExactStep(states[i - 1], rs[i - 1], slug, mode, FileCount(FileOf(states[0], slug), mode));
    }
  }

  /**
   Workers that report a recount of the file as they restored it, however old, never overshoot: over the whole run the
   coordinator's count of a purchase mode is exactly the number of its rounds in the file, and the file together with
   everything promised stays within the target, or within what the file held when the run began if that was more.
   */
  lemma RecountingWorkersNeverOvershoot(states: seq<State>, rs: seq<Request>, slug: Slug, mode: Mode, i: nat)
    requires Behavior(states, rs) && states[0].board == Board(map[], map[]) && i <= |rs| && Conduct(states, rs) && mode != 0
    requires RoundFiles.FilesInv(states[0])
    requires forall j {:trigger rs[j]} | 0 <= j < |rs| :: Disciplined(states[j], rs[j], slug, mode)
    requires forall j | 0 <= j < |rs| :: RecountsFile(states, rs, slug, mode, j)
    requires RecordOf(states[i].board, slug).Some? && mode in RecordOf(states[i].board, slug).value.targets
    ensures var f := RecordOf(states[i].board, slug).value;
      var stored, base := FileCount(FileOf(states[i], slug), mode), FileCount(FileOf(states[0], slug), mode);
      Get(f.counts, mode, 0) == stored && stored + Outstanding(f.reservations, mode) <= Max(f.targets[mode], base)
  {
    hide Step, RoundFiles.FilesInv, FileCount, Disciplined, RecountsFile, Conduct, Outstanding;
    ExactAt(states, rs, slug, mode, i);
  }

  /**
   Both halves of the client together: workers that report a recount of the restored file, and store only what they
   collected under a reservation or nothing new, never make the file outgrow the target or what it held at first.
   */
  lemma FileStaysWithinTarget(states: seq<State>, rs: seq<Request>, slug: Slug, mode: Mode, i: nat)
    requires Behavior(states, rs) && states[0].board == Board(map[], map[]) && i <= |rs| && Conduct(states, rs) && mode != 0
    requires RoundFiles.FilesInv(states[0])
    requires forall j | 0 <= j < |rs| :: QuotaProtocol.Covered(states, rs, slug, mode, j)
    requires forall j | 0 <= j < |rs| :: RecountsFile(states, rs, slug, mode, j)
    requires RecordOf(states[i].board, slug).Some? && mode in RecordOf(states[i].board, slug).value.targets
    ensures FileCount(FileOf(states[i], slug), mode)
         <= Max(RecordOf(states[i].board, slug).value.targets[mode], FileCount(FileOf(states[0], slug), mode))
  {
    hide Step, RoundFiles.FilesInv, FileCount, Disciplined, RecountsFile, Conduct, Outstanding, QuotaProtocol.Covered;
    forall j {:trigger rs[j]} | 0 <= j < |rs| ensures Disciplined(states[j], rs[j], slug, mode) {
      assert QuotaProtocol.Covered(states, rs, slug, mode, j);
      QuotaProtocol.CoveredIsDisciplined(states, rs, slug, mode, j);
    }
    RecountingWorkersNeverOvershoot(states, rs, slug, mode, i);
  }
}
