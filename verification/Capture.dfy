/**
 The client half of the quota protocol, from `oaks.ts`: the recount of a game's history, and the loop that collects
 rounds until every mode has met its target.
 */
module Capture {
  import opened Base
  import opened CoordinatorTypes
  import opened Sorting
  import Quotas = QuotaSafety
  import Steps = CoordinatorSteps

  // ----- the recount of a game's history -----

  datatype Document = Document(hash: Hash, mode: Mode, testOnly: bool)

  /** The mode under which every hash was last stored, test samples aside. */
  ghost function LastModes(docs: seq<Document>): map<Hash, Mode> {
    if docs == [] then map[]
    else
      var earlier, last := LastModes(docs[..|docs| - 1]), docs[|docs| - 1];
      if last.testOnly then earlier else earlier[last.hash := last.mode]
  }

  /** `docs[i]` is the last counted document with its hash. */
  ghost predicate IsLast(docs: seq<Document>, i: nat, hash: Hash, mode: Mode) {
    && i < |docs| && !docs[i].testOnly && docs[i].hash == hash && docs[i].mode == mode
    && forall j | i < j < |docs| :: docs[j].testOnly || docs[j].hash != hash
  }

  lemma {:induction false} LastModesExact(docs: seq<Document>, hash: Hash, mode: Mode)
    ensures hash in LastModes(docs) && LastModes(docs)[hash] == mode <==> exists i :: IsLast(docs, i, hash, mode)
    decreases docs
  {
    if docs != [] {
      var n := |docs| - 1;
      var earlier, last := docs[..n], docs[n];
      LastModesExact(earlier, hash, mode);
      if !last.testOnly && last.hash == hash {
        if last.mode == mode { assert IsLast(docs, n, hash, mode); }
        if i :| IsLast(docs, i, hash, mode) { assert i == n; }
      } else {
        if i :| IsLast(earlier, i, hash, mode) { assert IsLast(docs, i, hash, mode); }
        if i :| IsLast(docs, i, hash, mode) { assert IsLast(earlier, i, hash, mode); }
      }
    }
  }

  ghost function HashesOf(modes: map<Hash, Mode>, mode: Mode): set<Hash> {
    set h | h in modes && modes[h] == mode
  }

  ghost predicate Counts(counts: map<Mode, int>, modes: map<Hash, Mode>) {
    forall m: Mode :: Get(counts, m, 0) == |HashesOf(modes, m)|
  }

  lemma Moved(modes: map<Hash, Mode>, hash: Hash, mode: Mode, m: Mode)
    ensures |HashesOf(modes[hash := mode], m)|
         == |HashesOf(modes, m)| + (if m == mode then 1 else 0) - (if hash in modes && modes[hash] == m then 1 else 0)
  {
    var before, after := HashesOf(modes, m), HashesOf(modes[hash := mode], m);
    if m == mode {
      assert after == before + {hash};
    } else {
      assert after == before - {hash};
    }
  }

  /** Every mode's count is the number of different hashes whose last counted document has that mode. */
  method Recount(docs: seq<Document>) returns (modeCounts: map<Mode, int>)
    ensures Counts(modeCounts, LastModes(docs))
  {
    modeCounts := map[];
    var priorModes: map<Hash, Mode> := map[];
    var i := 0;
    assert docs[..0] == [];
    while i < |docs|
      invariant 0 <= i <= |docs|
      invariant priorModes == LastModes(docs[..i]) && Counts(modeCounts, priorModes)
    {
      var document := docs[i];
      assert docs[..i + 1][..i] == docs[..i];
      i := i + 1;
      if document.testOnly { continue; }
      ghost var modes, before := priorModes, modeCounts;
      if document.hash in priorModes {
        var previous := priorModes[document.hash];
        modeCounts := modeCounts[previous := Get(modeCounts, previous, 0) - 1];
      }
      priorModes := priorModes[document.hash := document.mode];
      modeCounts := modeCounts[document.mode := Get(modeCounts, document.mode, 0) + 1];
      forall m: Mode ensures Get(modeCounts, m, 0) == |HashesOf(priorModes, m)| {
        Moved(modes, document.hash, document.mode, m);
        assert Get(before, m, 0) == |HashesOf(modes, m)|;
      }
    }
    assert docs[..i] == docs;
  }

  // ----- the modes still to collect -----

  /** What the run asks for: targets by mode, or the defaults for normal rounds and for every other mode. */
  datatype Goal = Goal(targets: map<Mode, int>, normal: int, special: int)
  {
    function Target(mode: Mode): int {
      Get(targets, mode, if mode == 0 then normal else special)
    }
  }

  predicate Met(goal: Goal, counts: map<Mode, int>, mode: Mode) {
    goal.Target(mode) <= Get(counts, mode, 0)
  }

  function Unmet(goal: Goal, counts: map<Mode, int>): Mode -> bool {
    (mode: Mode) => !Met(goal, counts, mode)
  }

  function NormalLast(x: Mode, y: Mode): bool {
    x != 0 || y == 0
  }

  /** `remainingModeActions`, on the modes of the actions: what is not met, purchases first. */
  function Remaining(modes: seq<Mode>, goal: Goal, counts: map<Mode, int>): seq<Mode> {
    Sort(Filter(modes, Unmet(goal, counts)), NormalLast)
  }

  /** What a mode has, and what it is meant to have: its own target, or the default for its kind. */
  ghost predicate Short(goal: Goal, counts: map<Mode, int>, mode: Mode) {
    (if mode in counts then counts[mode] else 0)
    < if mode in goal.targets then goal.targets[mode] else if mode == 0 then goal.normal else goal.special
  }

  lemma RemainingExact(modes: seq<Mode>, goal: Goal, counts: map<Mode, int>, mode: Mode)
    ensures mode in Remaining(modes, goal, counts) <==> mode in modes && Short(goal, counts, mode)
  {
    FilterMembers(modes, Unmet(goal, counts));
    SortMembers(Filter(modes, Unmet(goal, counts)), NormalLast, mode);
  }

  /** A normal round is asked for only once no purchase is missing. */
  lemma NormalComesLast(modes: seq<Mode>, goal: Goal, counts: map<Mode, int>, mode: Mode)
    requires Remaining(modes, goal, counts) != [] && Remaining(modes, goal, counts)[0] == 0
    requires mode in modes && mode != 0
    ensures !Short(goal, counts, mode)
  {
    var rest := Remaining(modes, goal, counts);
    SortSorts(Filter(modes, Unmet(goal, counts)), NormalLast);
    RemainingExact(modes, goal, counts, mode);
    assert rest == [rest[0]] + rest[1..];
  }

  lemma RemainingNone(modes: seq<Mode>, goal: Goal, counts: map<Mode, int>)
    ensures Remaining(modes, goal, counts) == [] <==> forall mode | mode in modes :: !Short(goal, counts, mode)
  {
    forall mode | mode in modes
      ensures mode in Remaining(modes, goal, counts) <==> Short(goal, counts, mode)
    {
      RemainingExact(modes, goal, counts, mode);
    }
    if Remaining(modes, goal, counts) != [] {
      RemainingExact(modes, goal, counts, Remaining(modes, goal, counts)[0]);
    }
  }

  // ----- the collecting loop -----

  /** How playing and storing a round can go: the environment decides. */
  datatype Attempt =
    | Collected(hash: Hash)
    | Recoverable(played: bool)  // the round is dropped and a new session is opened
    | Fatal                      // the budget is spent, or the outcome is unknown: handed back to the worker

  datatype Ending = Complete | OutOfRounds | GaveUp | Thrown

  /** A round the loop set out to play: its mode, whether it was left over from before, and the counts at that moment. */
  datatype Play = Play(mode: Mode, resumed: bool, before: map<Mode, int>)

  /** A left-over round is finished and stored even when its mode no longer needs it. */
  ghost predicate Surplus(goal: Goal, start: map<Mode, int>, known: set<Hash>, pending: Option<Mode>, maxNewRounds: nat,
                          attempt: nat -> Attempt, mode: Mode)
  {
    && pending == Some(mode) && maxNewRounds > 0 && !Short(goal, start, mode)
    && attempt(0).Collected? && attempt(0).hash !in known
  }

  ghost predicate Justified(modes: seq<Mode>, goal: Goal, play: Play) {
    play.resumed
    || (&& play.mode in modes && Short(goal, play.before, play.mode)
        && (play.mode == 0 ==> forall m | m in modes && m != 0 :: !Short(goal, play.before, m)))
  }

  /** The collected rounds: new, each once, of modes that were asked for, and as many of each mode as it grew by. */
  ghost predicate Gathered(game: Slug, modes: seq<Mode>, start: map<Mode, int>, known: set<Hash>, pending: Option<Mode>,
                           counts: map<Mode, int>, collected: seq<Doc>)
  {
    && (forall d | d in collected :: d.game == game && d.hash !in known && (d.buy in modes || pending == Some(d.buy)))
    && (forall i, j | 0 <= i < j < |collected| :: collected[i].hash != collected[j].hash)
    && (forall m :: Quotas.CountMode(collected, m) == Get(counts, m, 0) - Get(start, m, 0))
  }

  lemma GatheredNext(game: Slug, modes: seq<Mode>, start: map<Mode, int>, known: set<Hash>, pending: Option<Mode>,
                     counts: map<Mode, int>, collected: seq<Doc>, hash: Hash, mode: Mode)
    requires Gathered(game, modes, start, known, pending, counts, collected)
    requires hash !in known && (forall d | d in collected :: d.hash != hash) && (mode in modes || pending == Some(mode))
    ensures Gathered(game, modes, start, known, pending, counts[mode := Get(counts, mode, 0) + 1],
                     collected + [Doc(game, hash, mode)])
  {
    forall m
      ensures Quotas.CountMode(collected + [Doc(game, hash, mode)], m)
           == Get(counts[mode := Get(counts, mode, 0) + 1], m, 0) - Get(start, m, 0)
    {
      Quotas.CountModeAppend(collected, [Doc(game, hash, mode)], m);
    }
  }

  /** How many of the attempts just before the `n`-th were recoverable failures; a collected round ends the streak. */
  ghost function Streak(attempt: nat -> Attempt, n: nat): nat {
    if n == 0 || !attempt(n - 1).Recoverable? then 0 else Streak(attempt, n - 1) + 1
  }

  /** How many of the first `n` attempts count towards the limit: collected rounds, and failures of a played round. */
  ghost function Used(attempt: nat -> Attempt, n: nat): nat {
    if n == 0 then 0
    else
      Used(attempt, n - 1)
      + match attempt(n - 1) {
          case Collected(_) => 1
          case Recoverable(played) => if played then 1 else 0
          case Fatal => 0
        }
  }

  /** The rounds that the first `n` plays added: every new hash once, under the mode of the play that first led to it. */
  ghost function Gained(game: Slug, known: set<Hash>, attempt: nat -> Attempt, plays: seq<Play>, n: nat): seq<Doc>
    requires n <= |plays|
  {
    if n == 0 then []
    else
      var earlier := Gained(game, known, attempt, plays, n - 1);
      match attempt(n - 1)
      case Collected(hash) =>
        if hash in known || exists d | d in earlier :: d.hash == hash then earlier
        else earlier + [Doc(game, hash, plays[n - 1].mode)]
      case _ => earlier
  }

  lemma {:induction false} GainedBefore(game: Slug, known: set<Hash>, attempt: nat -> Attempt, plays: seq<Play>, more: Play,
                                        n: nat)
    requires n <= |plays|
    ensures Gained(game, known, attempt, plays + [more], n) == Gained(game, known, attempt, plays, n)
    decreases n
  {
    if n > 0 { GainedBefore(game, known, attempt, plays, more, n - 1); }
  }

  /** Every play was set out on with the counts that the plays before it had led to. */
  ghost predicate Informed(game: Slug, start: map<Mode, int>, known: set<Hash>, attempt: nat -> Attempt, plays: seq<Play>) {
    forall k, m | 0 <= k < |plays| ::
      Get(plays[k].before, m, 0) == Get(start, m, 0) + Quotas.CountMode(Gained(game, known, attempt, plays, k), m)
  }

  ghost predicate Seen(hashes: set<Hash>, known: set<Hash>, collected: seq<Doc>) {
    forall h :: h in hashes <==> h in known || exists d | d in collected :: d.hash == h
  }

  lemma SeenNext(game: Slug, hashes: set<Hash>, known: set<Hash>, collected: seq<Doc>, hash: Hash, mode: Mode)
    requires Seen(hashes, known, collected)
    ensures Seen(hashes + {hash}, known, collected + [Doc(game, hash, mode)])
  {
    var more := collected + [Doc(game, hash, mode)];
    forall h ensures h in hashes + {hash} <==> h in known || exists d | d in more :: d.hash == h {
      assert more[|collected|].hash == hash;
      if d :| d in collected && d.hash == h { assert d in more; }
    }
  }

  lemma SeenUnused(hashes: set<Hash>, known: set<Hash>, collected: seq<Doc>)
    requires Seen(hashes, known, collected)
    ensures known <= hashes && forall d | d in collected :: d.hash in hashes
  {
  }

  /** What one more play adds. */
  lemma PlayGains(game: Slug, modes: seq<Mode>, start: map<Mode, int>, known: set<Hash>, pending: Option<Mode>,
                  attempt: nat -> Attempt, plays: seq<Play>, more: Play, hashes: set<Hash>)
    requires Informed(game, start, known, attempt, plays)
    requires Gathered(game, modes, start, known, pending, more.before, Gained(game, known, attempt, plays, |plays|))
    requires Seen(hashes, known, Gained(game, known, attempt, plays, |plays|))
    ensures Informed(game, start, known, attempt, plays + [more])
    ensures var e, n := Gained(game, known, attempt, plays, |plays|), |plays|;
      Gained(game, known, attempt, plays + [more], n + 1)
      == if attempt(n).Collected? && attempt(n).hash !in hashes then e + [Doc(game, attempt(n).hash, more.mode)] else e
  {
    hide Gathered;
    InformedNext(game, modes, start, known, pending, attempt, plays, more);
  }

  lemma InformedNext(game: Slug, modes: seq<Mode>, start: map<Mode, int>, known: set<Hash>, pending: Option<Mode>,
                     attempt: nat -> Attempt, plays: seq<Play>, more: Play)
    requires Informed(game, start, known, attempt, plays)
    requires Gathered(game, modes, start, known, pending, more.before, Gained(game, known, attempt, plays, |plays|))
    ensures Informed(game, start, known, attempt, plays + [more])
    ensures Gained(game, known, attempt, plays + [more], |plays|) == Gained(game, known, attempt, plays, |plays|)
  {
    hide Gained;
    GainedBefore(game, known, attempt, plays, more, |plays|);
    forall k, m | 0 <= k <= |plays|
      ensures Get((plays + [more])[k].before, m, 0)
           == Get(start, m, 0) + Quotas.CountMode(Gained(game, known, attempt, plays + [more], k), m)
    {
      GainedBefore(game, known, attempt, plays, more, k);
    }
  }

  /** Every play was of a mode that was needed, and at most the first one resumes the left-over round. */
  ghost predicate AllNeeded(modes: seq<Mode>, goal: Goal, pending: Option<Mode>, plays: seq<Play>) {
    && (forall k | 0 <= k < |plays| :: Justified(modes, goal, plays[k]))
    && (forall k | 0 <= k < |plays| && plays[k].resumed :: k == 0 && pending == Some(plays[k].mode))
    && (plays != [] && pending.Some? ==> plays[0].resumed)
  }

  lemma NeededNext(modes: seq<Mode>, goal: Goal, pending: Option<Mode>, plays: seq<Play>, play: Play)
    requires AllNeeded(modes, goal, pending, plays) && Justified(modes, goal, play)
    requires if plays == [] then (if play.resumed then pending == Some(play.mode) else pending.None?) else !play.resumed
    ensures AllNeeded(modes, goal, pending, plays + [play])
  {
    hide Justified;
  }

  method CaptureRounds(game: Slug, modes: seq<Mode>, goal: Goal, start: map<Mode, int>, known: set<Hash>,
                       pending: Option<Mode>, maxNewRounds: nat, maxRetries: nat, attempt: nat -> Attempt)
    returns (counts: map<Mode, int>, collected: seq<Doc>, plays: seq<Play>, ending: Ending)
    ensures Gathered(game, modes, start, known, pending, counts, collected)
    ensures collected == Gained(game, known, attempt, plays, |plays|) && Informed(game, start, known, attempt, plays)
    ensures forall m :: Get(start, m, 0) <= Get(counts, m, 0)
    ensures forall m :: Get(counts, m, 0) > Max(goal.Target(m), Get(start, m, 0))
                   <==> Surplus(goal, start, known, pending, maxNewRounds, attempt, m)
    ensures AllNeeded(modes, goal, pending, plays) && (pending.Some? && maxNewRounds > 0 ==> plays != [])
    ensures ending == Complete ==> forall m | m in modes :: !Short(goal, counts, m)
    ensures ending == OutOfRounds ==> exists m | m in modes :: Short(goal, counts, m)
    ensures ending == GaveUp <==> Streak(attempt, |plays|) > maxRetries
    ensures forall k | 0 <= k < |plays| :: Streak(attempt, k) <= maxRetries
    ensures ending == Thrown <==> plays != [] && attempt(|plays| - 1).Fatal?
    ensures forall k | 0 <= k < |plays| - 1 :: !attempt(k).Fatal?
    ensures Used(attempt, |plays|) <= maxNewRounds && (ending == OutOfRounds ==> Used(attempt, |plays|) == maxNewRounds)
  {
    hide Remaining, Within, Surplus, Justified, Short, Gathered, Gained, Informed, Seen,
      AllNeeded;
    counts, collected, plays := start, [], [];
    assert Gathered(game, modes, start, known, pending, counts, collected) by {
      GatheredNone(game, modes, start, known, pending);
    }
    NothingGained(game, start, known, attempt);
    assert AllNeeded(modes, goal, pending, plays) by { NothingNeeded(modes, goal, pending); }
    var hashes, waiting := known, pending;
    var attempted, retries, n := 0, 0, 0;
    while (waiting.Some? || Remaining(modes, goal, counts) != []) && attempted < maxNewRounds
      invariant 0 <= attempted <= maxNewRounds && 0 <= retries <= maxRetries && |plays| == n
      invariant attempted == Used(attempt, n) && retries == Streak(attempt, n)
      invariant forall k | 0 <= k <= n :: Streak(attempt, k) <= maxRetries
      invariant forall k | 0 <= k < n :: !attempt(k).Fatal?
      invariant n == 0 ==> counts == start && waiting == pending && hashes == known && attempted == 0
      invariant n > 0 ==> waiting.None? && maxNewRounds > 0
      invariant n > 0 ==> Within(goal, start, known, pending, maxNewRounds, attempt, counts)
      invariant Gathered(game, modes, start, known, pending, counts, collected)
      invariant collected == Gained(game, known, attempt, plays, n) && Informed(game, start, known, attempt, plays)
      invariant Seen(hashes, known, collected)
      invariant AllNeeded(modes, goal, pending, plays)
      decreases maxNewRounds - attempted, maxRetries - retries
    {
      var needed := Remaining(modes, goal, counts);
      var mode := if waiting.Some? then waiting.value else needed[0];
      ghost var play := Play.Play(mode, waiting.Some?, counts);
      Needed(modes, goal, play, needed);
      NeededNext(modes, goal, pending, plays, play);
      PlayGains(game, modes, start, known, pending, attempt, plays, play, hashes);
      SeenUnused(hashes, known, collected);
      plays := plays + [Play.Play(mode, waiting.Some?, counts)];
      ghost var counted := attempt(n).Collected? && attempt(n).hash !in hashes;
      WithinNext(goal, start, known, pending, maxNewRounds, attempt, counts, mode, n == 0, counted);
      match attempt(n) {
        case Collected(hash) =>
          attempted := attempted + 1;
          if hash !in hashes {
            GatheredNext(game, modes, start, known, pending, counts, collected, hash, mode);
            SeenNext(game, hashes, known, collected, hash, mode);
            hashes := hashes + {hash};
            collected := collected + [Doc(game, hash, mode)];
            counts := counts[mode := Get(counts, mode, 0) + 1];
          }
          waiting, retries := None, 0;
        case Recoverable(played) =>
          if played { attempted := attempted + 1; }
          waiting, retries := None, retries + 1;
          if retries > maxRetries {
            WithinSays(goal, start, known, pending, maxNewRounds, attempt, counts);
            return counts, collected, plays, GaveUp;
          }
        case Fatal =>
          WithinSays(goal, start, known, pending, maxNewRounds, attempt, counts);
          return counts, collected, plays, Thrown;
      }
      n := n + 1;
    }
    RemainingNone(modes, goal, counts);
    if n == 0 { WithinStart(goal, start, known, pending, maxNewRounds, attempt); }
    WithinSays(goal, start, known, pending, maxNewRounds, attempt, counts);
    ending := if Remaining(modes, goal, counts) == [] then Complete else OutOfRounds;
  }

  lemma NothingNeeded(modes: seq<Mode>, goal: Goal, pending: Option<Mode>)
    ensures AllNeeded(modes, goal, pending, [])
  {
  }

  lemma NothingGained(game: Slug, start: map<Mode, int>, known: set<Hash>, attempt: nat -> Attempt)
    ensures Gained(game, known, attempt, [], 0) == [] && Informed(game, start, known, attempt, []) && Seen(known, known, [])
  {
  }

  lemma GatheredNone(game: Slug, modes: seq<Mode>, start: map<Mode, int>, known: set<Hash>, pending: Option<Mode>)
    ensures Gathered(game, modes, start, known, pending, start, [])
  {
  }

  /** No mode is past its target and its starting count, but for a left-over round that was not needed. */
  ghost predicate Within(goal: Goal, start: map<Mode, int>, known: set<Hash>, pending: Option<Mode>, maxNewRounds: nat,
                         attempt: nat -> Attempt, counts: map<Mode, int>)
  {
    forall m ::
      && Get(start, m, 0) <= Get(counts, m, 0)
      && if Surplus(goal, start, known, pending, maxNewRounds, attempt, m) then Get(counts, m, 0) == Get(start, m, 0) + 1
         else Get(counts, m, 0) <= Max(goal.Target(m), Get(start, m, 0))
  }

  lemma WithinSays(goal: Goal, start: map<Mode, int>, known: set<Hash>, pending: Option<Mode>, maxNewRounds: nat,
                   attempt: nat -> Attempt, counts: map<Mode, int>)
    requires Within(goal, start, known, pending, maxNewRounds, attempt, counts)
    ensures forall m :: Get(start, m, 0) <= Get(counts, m, 0)
    ensures forall m :: Get(counts, m, 0) > Max(goal.Target(m), Get(start, m, 0))
                   <==> Surplus(goal, start, known, pending, maxNewRounds, attempt, m)
  {
  }

  lemma WithinStart(goal: Goal, start: map<Mode, int>, known: set<Hash>, pending: Option<Mode>, maxNewRounds: nat,
                    attempt: nat -> Attempt)
    requires pending.None? || maxNewRounds == 0
    ensures Within(goal, start, known, pending, maxNewRounds, attempt, start)
  {
  }

  lemma WithinNext(goal: Goal, start: map<Mode, int>, known: set<Hash>, pending: Option<Mode>, maxNewRounds: nat,
                   attempt: nat -> Attempt, counts: map<Mode, int>, mode: Mode, first: bool, counted: bool)
    requires maxNewRounds > 0
    requires first ==> counts == start && (pending == Some(mode) || (pending.None? && Short(goal, counts, mode)))
    requires first ==> (counted <==> attempt(0).Collected? && attempt(0).hash !in known)
    requires !first ==>
      Within(goal, start, known, pending, maxNewRounds, attempt, counts) && Short(goal, counts, mode)
    ensures Within(goal, start, known, pending, maxNewRounds, attempt,
                   if counted then counts[mode := Get(counts, mode, 0) + 1] else counts)
  {
  }

  lemma Needed(modes: seq<Mode>, goal: Goal, play: Play, needed: seq<Mode>)
    requires needed == Remaining(modes, goal, play.before) && (play.resumed || (needed != [] && play.mode == needed[0]))
    ensures Justified(modes, goal, play)
    ensures play.resumed || (play.mode in modes && Short(goal, play.before, play.mode))
  {
    if !play.resumed {
      RemainingExact(modes, goal, play.before, play.mode);
      if play.mode == 0 {
        forall m | m in modes && m != 0 ensures !Short(goal, play.before, m) {
          NormalComesLast(modes, goal, play.before, m);
        }
      }
    }
  }

  /** `modeCountsForTargets`: only the modes a run asks for are reported to the coordinator. */
  function CountsForTargets(counts: map<Mode, int>, targets: map<Mode, int>): map<Mode, int> {
    map m | m in targets :: Get(counts, m, 0)
  }

  /**
   Collecting under a purchase lease: the loop runs with the targets that the coordinator hands out for the reported
   counts. A capture starts without a left-over round, so what it collects of each mode is at most what was reserved.
   */
  method CaptureReserved(game: Slug, modes: seq<Mode>, told: map<Mode, int>, ghost targets: map<Mode, int>,
                         ghost mine: Reservation, start: map<Mode, int>, known: set<Hash>, normal: int, special: int,
                         maxNewRounds: nat, maxRetries: nat, attempt: nat -> Attempt)
    returns (counts: map<Mode, int>, collected: seq<Doc>, ending: Ending)
    requires told == Steps.LocalTargets(CountsForTargets(start, targets), targets, mine)
    requires (forall m | m in modes :: m in targets) && forall m | m in targets :: Get(start, m, 0) >= 0
    ensures Gathered(game, modes, start, known, None, counts, collected)
    ensures forall m :: Quotas.CountMode(collected, m) <= Get(mine.reserved, m, 0)
  {
    hide Gathered, Surplus;
    var goal := Goal(told, normal, special);
    var plays;
    counts, collected, plays, ending :=
      CaptureRounds(game, modes, goal, start, known, None, maxNewRounds, maxRetries, attempt);
    forall m ensures Quotas.CountMode(collected, m) <= Get(mine.reserved, m, 0) {
      if m in targets {
        NoSurplus(goal, start, known, maxNewRounds, attempt, m);
        ReservedTarget(start, targets, mine, normal, special, m);
        GatheredCount(game, modes, start, known, counts, collected, m);
      } else {
        GatheredNoOther(game, modes, start, known, counts, collected, m);
      }
    }
  }

  lemma NoSurplus(goal: Goal, start: map<Mode, int>, known: set<Hash>, maxNewRounds: nat, attempt: nat -> Attempt,
                  mode: Mode)
    ensures !Surplus(goal, start, known, None, maxNewRounds, attempt, mode)
  {
  }

  lemma ReservedTarget(start: map<Mode, int>, targets: map<Mode, int>, mine: Reservation, normal: int, special: int,
                       mode: Mode)
    requires mode in targets && Get(start, mode, 0) >= 0
    ensures Goal(Steps.LocalTargets(CountsForTargets(start, targets), targets, mine), normal, special).Target(mode)
         == Get(start, mode, 0) + Get(mine.reserved, mode, 0)
  {
    var reported := CountsForTargets(start, targets);
    assert mode in Steps.LocalTargets(reported, targets, mine);
  }

  lemma GatheredCount(game: Slug, modes: seq<Mode>, start: map<Mode, int>, known: set<Hash>, counts: map<Mode, int>,
                      collected: seq<Doc>, mode: Mode)
    requires Gathered(game, modes, start, known, None, counts, collected)
    ensures Quotas.CountMode(collected, mode) == Get(counts, mode, 0) - Get(start, mode, 0)
  {
  }

  lemma GatheredNoOther(game: Slug, modes: seq<Mode>, start: map<Mode, int>, known: set<Hash>, counts: map<Mode, int>,
                        collected: seq<Doc>, mode: Mode)
    requires Gathered(game, modes, start, known, None, counts, collected) && mode !in modes
    ensures Quotas.CountMode(collected, mode) == 0
  {
    Quotas.CountModeNone(collected, mode);
  }
}
