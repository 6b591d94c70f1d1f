/**
 Playing one round to its end and checking what came back: `playRound` of `oaks.ts`, which can be interrupted and resumed
 at any frame, and `validateCommonRound` of `src/protocol.ts`. Amounts are whole numbers.
 */
module Rounds {
  import opened Base

  /** An entry of a frame's action list: text, or some other value and how it reads as text. */
  datatype Offer = Text(name: string) | Other(shown: string)
  {
    function Shown(): string {
      if Text? then name else shown
    }
  }

  /** The `round_finished` field; anything but `true` can still count as true. */
  datatype Flag = Absent | No | Yes | Truthy

  datatype Amounts = Amounts(totalWin: Option<int>, roundWin: Option<int>)

  datatype Frame = Frame(ok: bool, lastAction: string, offers: seq<Offer>, finished: Flag, current: Option<Amounts>,
                         context: Amounts)

  const STEP_LIMIT := 100

  // ----- what follows a frame -----

  function FirstMove(offers: seq<Offer>): Option<string> {
    if offers == [] then None
    else if offers[0].Text? && offers[0].name != "spin" then Some(offers[0].name)
    else FirstMove(offers[1..])
  }

  /** `nextAction`: the first action on offer that is not a new spin; an empty name ends the round as well. */
  function NextAction(f: Frame): Option<string> {
    if f.finished in {Yes, Truthy} then None
    else if FirstMove(f.offers) == Some("") then None
    else FirstMove(f.offers)
  }

  predicate SaysFinished(f: Frame) {
    f.finished == Yes || f.finished == Truthy
  }

  /** `name` is the first text on offer that is not a new spin. */
  ghost predicate OffersFirst(f: Frame, name: string) {
    exists i :: 0 <= i < |f.offers| && f.offers[i] == Text(name) && name != "spin"
                && forall k | 0 <= k < i :: !f.offers[k].Text? || f.offers[k].name == "spin"
  }

  lemma {:induction false} FirstMoveIff(offers: seq<Offer>, name: string)
    ensures FirstMove(offers) == Some(name) <==>
      exists i :: 0 <= i < |offers| && offers[i] == Text(name) && name != "spin"
                  && forall k | 0 <= k < i :: !offers[k].Text? || offers[k].name == "spin"
    decreases offers
  {
    if offers != [] {
      var rest := offers[1..];
      FirstMoveIff(rest, name);
      if FirstMove(rest) == Some(name) && !(offers[0].Text? && offers[0].name != "spin") {
        var i :| 0 <= i < |rest| && rest[i] == Text(name) && name != "spin"
                 && forall k | 0 <= k < i :: !rest[k].Text? || rest[k].name == "spin";
        assert offers[i + 1] == Text(name);
        assert forall k | 1 <= k < i + 1 :: offers[k] == rest[k - 1];
      }
      if i :| 0 <= i < |offers| && offers[i] == Text(name) && name != "spin"
              && forall k | 0 <= k < i :: !offers[k].Text? || offers[k].name == "spin" {
        if i > 0 {
          assert rest[i - 1] == Text(name);
          assert forall k | 0 <= k < i - 1 :: rest[k] == offers[k + 1];
        }
      }
    }
  }

  /**
   What follows a frame: nothing when it says that the round is finished, even with actions on offer; otherwise the first
   action on offer that is not a new spin, if there is one and it has a name.
   */
  lemma NextActionIff(f: Frame, name: string)
    ensures NextAction(f) == Some(name) <==> !SaysFinished(f) && name != "" && OffersFirst(f, name)
    ensures NextAction(f).None? <==> SaysFinished(f) || !exists n :: n != "" && OffersFirst(f, n)
  {
    FirstMoveIff(f.offers, name);
    forall n ensures FirstMove(f.offers) == Some(n) <==> OffersFirst(f, n) { FirstMoveIff(f.offers, n); }
  }

  lemma {:induction false} FirstMoveOffered(offers: seq<Offer>)
    ensures FirstMove(offers).Some? ==> Text(FirstMove(offers).value) in offers
    decreases offers
  {
    if offers != [] { FirstMoveOffered(offers[1..]); }
  }

  // ----- a round against a server -----

  /** The answer to the last of the actions sent in a round; a failed request has none. */
  datatype Server = Server(reply: seq<string> -> Option<Frame>)

  /** What has been sent once the frames are known: the opening action and then what each frame asks for. */
  function Sent(action: string, frames: seq<Frame>): seq<string>
    requires forall i | 0 <= i < |frames| :: NextAction(frames[i]).Some?
  {
    [action] + seq(|frames|, i requires 0 <= i < |frames| => NextAction(frames[i]).value)
  }

  /** Every frame is the server's answer to the action the frame before it asks for. */
  ghost predicate Answers(server: Server, action: string, frames: seq<Frame>) {
    && (forall i | 0 <= i < |frames| - 1 :: NextAction(frames[i]).Some?)
    && (forall i | 0 <= i < |frames| :: AnswersAt(server, action, frames, i))
  }

  ghost predicate AnswersAt(server: Server, action: string, frames: seq<Frame>, i: nat)
    requires i < |frames| && forall j | 0 <= j < |frames| - 1 :: NextAction(frames[j]).Some?
  {
    server.reply(Sent(action, frames[..i])) == Some(frames[i])
  }

  ghost predicate Complete(server: Server, action: string, frames: seq<Frame>) {
    Answers(server, action, frames) && frames != [] && NextAction(frames[|frames| - 1]).None?
  }

  lemma AnswersNext(server: Server, action: string, frames: seq<Frame>, next: Frame)
    requires Answers(server, action, frames) && (frames != [] ==> NextAction(frames[|frames| - 1]).Some?)
    requires server.reply(Sent(action, frames)) == Some(next)
    ensures Answers(server, action, frames + [next])
  {
    var longer := frames + [next];
    forall i | 0 <= i < |longer| ensures AnswersAt(server, action, longer, i) {
      if i < |frames| {
        assert longer[..i] == frames[..i];
        assert AnswersAt(server, action, frames, i);
      } else {
        assert longer[..i] == frames;
      }
    }
  }

  /** Against a deterministic server a round can only go one way. */
  lemma {:induction false} AnswersAgree(server: Server, action: string, a: seq<Frame>, b: seq<Frame>, n: nat)
    requires Answers(server, action, a) && Answers(server, action, b) && n <= |a| && n <= |b|
    ensures forall i | 0 <= i < n :: a[i] == b[i]
    decreases n
  {
    if n > 0 {
      AnswersAgree(server, action, a, b, n - 1);
      assert a[..n - 1] == b[..n - 1];
      assert AnswersAt(server, action, a, n - 1) && AnswersAt(server, action, b, n - 1);
    }
  }

  lemma CompleteUnique(server: Server, action: string, a: seq<Frame>, b: seq<Frame>)
    requires Complete(server, action, a) && Answers(server, action, b)
    ensures b <= a && (Complete(server, action, b) ==> a == b)
  {
    AnswersAgree(server, action, a, b, if |a| < |b| then |a| else |b|);
  }

  /** The opening action and then, for each of the frames, the first action it offers. */
  ghost predicate Continues(action: string, frames: seq<Frame>, sent: seq<string>) {
    && |sent| == |frames| + 1 && sent[0] == action
    && forall k | 0 <= k < |frames| :: OffersFirst(frames[k], sent[k + 1])
  }

  /**
   A complete account of a round: it goes on exactly while no frame says that it is finished, each frame answers what was
   sent up to it, and the last frame says that the round is finished or offers nothing to go on with.
   */
  lemma CompleteRound(server: Server, action: string, frames: seq<Frame>, i: nat)
    requires Complete(server, action, frames) && i < |frames|
    ensures exists sent :: Continues(action, frames[..i], sent) && server.reply(sent) == Some(frames[i])
    ensures if i < |frames| - 1 then !SaysFinished(frames[i])
            else SaysFinished(frames[i]) || !exists n :: n != "" && OffersFirst(frames[i], n)
  {
    assert AnswersAt(server, action, frames, i);
    var sent := Sent(action, frames[..i]);
    forall k | 0 <= k < i ensures OffersFirst(frames[..i][k], sent[k + 1]) {
      NextActionIff(frames[k], NextAction(frames[k]).value);
    }
    assert Continues(action, frames[..i], sent);
    NextActionIff(frames[i], if NextAction(frames[i]).Some? then NextAction(frames[i]).value else "");
  }

  // ----- playing -----

  datatype Pending = Pending(action: string, frames: seq<Frame>)
  datatype Outcome = Finished(frames: seq<Frame>) | Stopped | Failed | TooLong

  /** The most frames a call can end with: the step limit starts again at every call. */
  function Reach(start: Pending): nat {
    Max(1, |start.frames|) + STEP_LIMIT
  }

  /** What one call may do with a pending round. */
  ghost predicate Plays(server: Server, start: Pending, outcome: Outcome, end: Pending) {
    && end.action == start.action && start.frames <= end.frames
    && Answers(server, end.action, end.frames)
    && match outcome {
       case Finished(frames) =>
         frames == end.frames && Complete(server, end.action, frames) && |frames| < Reach(start)
       case TooLong => |end.frames| == Reach(start)
       case Failed => !Complete(server, end.action, end.frames) && server.reply(Requested(end)) == None
       case Stopped => true
       }
  }

  /**
   Whatever was received before an interruption, resuming a round that the server can complete ends with the same frames
   as playing it in one go; it is given up exactly when more than the step limit is still missing.
   */
  lemma ResumeExact(server: Server, start: Pending, outcome: Outcome, end: Pending, full: seq<Frame>)
    requires Complete(server, start.action, full) && Plays(server, start, outcome, end)
    ensures end.frames <= full && outcome != Failed
    ensures outcome.Finished? ==> outcome.frames == full
    ensures outcome != Stopped ==> (outcome.Finished? <==> |full| < Max(1, |start.frames|) + 100)
  {
    CompleteUnique(server, start.action, full, end.frames);
    if |end.frames| < |full| {
      assert AnswersAt(server, start.action, full, |end.frames|);
      assert full[..|end.frames|] == end.frames;
    }
  }

  /** However often a round is interrupted, the call that finishes it returns what one uninterrupted call would. */
  lemma {:induction false} InterruptionsAgree(server: Server, rounds: seq<Pending>, outcomes: seq<Outcome>, full: seq<Frame>)
    requires |rounds| == |outcomes| + 1 && outcomes != [] && Complete(server, rounds[0].action, full)
    requires forall i | 0 <= i < |outcomes| :: Plays(server, rounds[i], outcomes[i], rounds[i + 1])
    ensures outcomes[|outcomes| - 1].Finished? ==> outcomes[|outcomes| - 1].frames == full
    decreases outcomes
  {
    if |outcomes| == 1 {
      ResumeExact(server, rounds[0], outcomes[0], rounds[1], full);
    } else {
      assert forall i | 0 <= i < |outcomes| - 1 :: outcomes[1..][i] == outcomes[i + 1] && rounds[1..][i] == rounds[i + 1];
      assert Plays(server, rounds[0], outcomes[0], rounds[1]);
      InterruptionsAgree(server, rounds[1..], outcomes[1..], full);
    }
  }

  /** How many frames a call has added, but for the answer to an opening. */
  ghost function Steps(before: Option<Pending>, after: Option<Pending>): int {
    if after.None? then 0
    else |after.value.frames| - Max(1, if before.Some? then |before.value.frames| else 0)
  }

  /** What outlives an interruption: the round that was begun and the frames received so far. */
  class CaptureRuntime {
    var pending: Option<Pending>

    constructor ()
      ensures pending == None
    {
      pending := None;
    }

    /** Play a round, or resume the pending one; `stop` is the budget check made before the opening and every step. */
    method PlayRound(server: Server, action: string, stop: nat -> bool) returns (outcome: Outcome)
      requires pending.Some? ==> Answers(server, pending.value.action, pending.value.frames)
      modifies this
      ensures pending.None? ==> old(pending).None? && outcome.Stopped?
      ensures pending.Some? ==>
        Plays(server, if old(pending).Some? then old(pending).value else Pending.Pending(action, []), outcome, pending.value)
      ensures stop(0) ==> pending == old(pending)
      ensures outcome.Stopped? <==>
        stop(0) || (0 <= Steps(old(pending), pending) < 100 && stop(Steps(old(pending), pending) + 1))
      ensures !stop(0) ==> pending.Some? && forall k | 0 <= k <= Steps(old(pending), pending) :: !stop(k)
    {
      hide AnswersAt, NextAction, Sent, Requested;
      var round := if pending.Some? then pending.value else Pending.Pending(action, []);
      if stop(0) { return Stopped; }
      pending := Some(round);
      var response;
      if round.frames == [] {
        var opening := server.reply([round.action]);
        Opening(server, round.action);
        if opening.None? { return Failed; }
        response := opening.value;
        AnswersNext(server, round.action, [], response);
        round := round.(frames := [response]);
        assert [] + [response] == [response];
        pending := Some(round);
      } else {
        response := round.frames[|round.frames| - 1];
      }
      ghost var start := |round.frames|;
      var step := 0;
      while step < STEP_LIMIT
        invariant 0 <= step <= STEP_LIMIT && pending == Some(round) && round.frames != []
        invariant response == round.frames[|round.frames| - 1] && |round.frames| == start + step
        invariant Answers(server, round.action, round.frames)
        invariant old(pending).Some? ==>
          round.action == old(pending).value.action && old(pending).value.frames <= round.frames
        invariant old(pending).None? ==> round.action == action
        invariant forall k | 0 <= k <= step :: !stop(k)
        invariant start == Max(1, if old(pending).Some? then |old(pending).value.frames| else 0)
      {
        if stop(step + 1) { return Stopped; }
        var name := NextAction(response);
        if name.None? { return Finished(round.frames); }
        RequestedIs(server, round);
        var answer := server.reply(Requested(round));
        if answer.None? { return Failed; }
        AnswersNext(server, round.action, round.frames, answer.value);
        response := answer.value;
        round := round.(frames := round.frames + [response]);
        pending := Some(round);
        step := step + 1;
      }
      return TooLong;
    }
  }

  /** The actions of a round up to its next request. */
  function Requested(p: Pending): seq<string> {
    if forall i | 0 <= i < |p.frames| :: NextAction(p.frames[i]).Some? then Sent(p.action, p.frames) else []
  }

  lemma Opening(server: Server, action: string)
    ensures Sent(action, []) == [action] == Requested(Pending.Pending(action, [])) && Answers(server, action, [])
  {
  }

  lemma RequestedIs(server: Server, p: Pending)
    requires Answers(server, p.action, p.frames) && p.frames != [] && NextAction(p.frames[|p.frames| - 1]).Some?
    ensures Requested(p) == Sent(p.action, p.frames)
  {
  }

  // ----- checking a round -----

  datatype Problem = NoFrames | BadBet | BadOpening | BadStatus(at: nat) | NoWin(at: nat) | WinFell(at: nat)
                   | NotOffered(at: nat) | Unfinished | NoSpin

  datatype Verdict = Accepted(win: nat, wins: seq<nat>) | Rejected(problem: Problem)

  function LowerChar(c: char): char {
    if 'A' <= c <= 'Z' then (c as int - 'A' as int + 'a' as int) as char else c
  }

  function Lower(s: string): string {
    seq(|s|, i requires 0 <= i < |s| => LowerChar(s[i]))
  }

  predicate Offers(f: Frame, name: string) {
    exists i | 0 <= i < |f.offers| :: Lower(f.offers[i].Shown()) == name
  }

  /** The places a win is looked for, in order. */
  function WinFields(f: Frame): seq<Option<int>> {
    (if f.current.Some? then [f.current.value.totalWin, f.current.value.roundWin] else [])
    + [f.context.totalWin, f.context.roundWin]
  }

  function FirstAmount(fields: seq<Option<int>>): Option<nat> {
    if fields == [] then None
    else if fields[0].Some? && fields[0].value >= 0 then Some(fields[0].value)
    else FirstAmount(fields[1..])
  }

  /** `frameCumulativeWin` */
  function CumulativeWin(f: Frame): Option<nat> {
    FirstAmount(WinFields(f))
  }

  ghost predicate Usable(amount: Option<int>) {
    amount.Some? && amount.value >= 0
  }

  /**
   The win of a frame: the first that is present and not negative of the total and the round's win of its current state,
   and then of its context.
   */
  lemma CumulativeWinIff(f: Frame, win: nat)
    ensures CumulativeWin(f) == Some(win) <==>
      if f.current.Some? && Usable(f.current.value.totalWin) then f.current.value.totalWin == Some(win)
      else if f.current.Some? && Usable(f.current.value.roundWin) then f.current.value.roundWin == Some(win)
      else if Usable(f.context.totalWin) then f.context.totalWin == Some(win)
      else f.context.roundWin == Some(win)
  {
    var c := f.context;
    FirstOf(c.totalWin, [c.roundWin]);
    FirstOf(c.roundWin, []);
    if f.current.Some? {
      var s := f.current.value;
      FirstOf(s.totalWin, [s.roundWin, c.totalWin, c.roundWin]);
      FirstOf(s.roundWin, [c.totalWin, c.roundWin]);
      assert WinFields(f) == [s.totalWin] + [s.roundWin, c.totalWin, c.roundWin];
      assert [s.roundWin, c.totalWin, c.roundWin] == [s.roundWin] + [c.totalWin, c.roundWin];
    }
    assert [c.totalWin, c.roundWin] == [c.totalWin] + [c.roundWin] && [c.roundWin] == [c.roundWin] + [];
    assert f.current.None? ==> WinFields(f) == [c.totalWin, c.roundWin];
  }

  lemma FirstOf(amount: Option<int>, rest: seq<Option<int>>)
    ensures FirstAmount([amount] + rest) == if Usable(amount) then Some(amount.value) else FirstAmount(rest)
  {
    assert ([amount] + rest)[1..] == rest;
  }

  /** The last frame that has a win at all. */
  function LastWin(frames: seq<Frame>): Option<nat> {
    if frames == [] then None
    else if CumulativeWin(frames[|frames| - 1]).Some? then CumulativeWin(frames[|frames| - 1])
    else LastWin(frames[..|frames| - 1])
  }

  /** `roundWin`: the win of the round, looked for from the last frame backwards. */
  method RoundWin(frames: seq<Frame>) returns (win: Option<nat>)
    ensures win == LastWin(frames)
  {
    var index := |frames|;
    assert frames[..index] == frames;
    while index > 0
      invariant 0 <= index <= |frames| && LastWin(frames) == LastWin(frames[..index])
    {
      index := index - 1;
      assert frames[..index + 1][..index] == frames[..index];
      var amount := CumulativeWin(frames[index]);
      if amount.Some? { return amount; }
    }
    return None;
  }

  /** A frame that continues the round: in order, paying no less than before, and answering something on offer. */
  predicate FrameFine(frames: seq<Frame>, i: nat)
    requires i < |frames|
  {
    && frames[i].ok && CumulativeWin(frames[i]).Some?
    && (i > 0 ==>
          && (CumulativeWin(frames[i - 1]).Some? ==> CumulativeWin(frames[i - 1]).value <= CumulativeWin(frames[i]).value)
          && Offers(frames[i - 1], Lower(frames[i].lastAction)))
  }

  predicate Acceptable(frames: seq<Frame>, bet: int) {
    && frames != [] && bet > 0 && Lower(frames[0].lastAction) in {"spin", "buy_spin"}
    && (forall i | 0 <= i < |frames| :: FrameFine(frames, i))
    && frames[|frames| - 1].finished == Yes && Offers(frames[|frames| - 1], "spin")
  }

  /** Why a round was turned away: the first check it fails. */
  ghost predicate Explains(frames: seq<Frame>, bet: int, problem: Problem) {
    match problem
    case NoFrames => frames == []
    case BadBet => frames != [] && bet <= 0
    case BadOpening => frames != [] && bet > 0 && Lower(frames[0].lastAction) !in {"spin", "buy_spin"}
    case BadStatus(at) => Opened(frames, bet) && FineUpTo(frames, at) && !frames[at].ok
    case NoWin(at) => Opened(frames, bet) && FineUpTo(frames, at) && frames[at].ok && CumulativeWin(frames[at]).None?
    case WinFell(at) => Opened(frames, bet) && FineUpTo(frames, at) && Paid(frames, at) && Fell(frames, at)
    case NotOffered(at) =>
      && Opened(frames, bet) && FineUpTo(frames, at) && Paid(frames, at) && !Fell(frames, at)
      && at > 0 && !Offers(frames[at - 1], Lower(frames[at].lastAction))
    case Unfinished =>
      Opened(frames, bet) && FinePrefix(frames, |frames|) && frames[|frames| - 1].finished != Yes
    case NoSpin =>
      && Opened(frames, bet) && FinePrefix(frames, |frames|) && frames[|frames| - 1].finished == Yes
      && !Offers(frames[|frames| - 1], "spin")
  }

  ghost predicate Opened(frames: seq<Frame>, bet: int) {
    frames != [] && bet > 0 && Lower(frames[0].lastAction) in {"spin", "buy_spin"}
  }

  ghost predicate Paid(frames: seq<Frame>, at: nat)
    requires at < |frames|
  {
    frames[at].ok && CumulativeWin(frames[at]).Some?
  }

  ghost predicate Fell(frames: seq<Frame>, at: nat)
    requires at < |frames| && Paid(frames, at)
  {
    at > 0 && CumulativeWin(frames[at - 1]).Some? && CumulativeWin(frames[at]).value < CumulativeWin(frames[at - 1]).value
  }

  /** A round that is turned away at a frame is turned away at the first one that is not fine. */
  lemma FaultAt(frames: seq<Frame>, bet: int, problem: Problem)
    requires Explains(frames, bet, problem)
    ensures problem.BadStatus? || problem.NoWin? || problem.WinFell? || problem.NotOffered? ==>
      FineUpTo(frames, problem.at) && !FrameFine(frames, problem.at)
  {
  }

  /** Only one check is the first to fail. */
  lemma ExplanationUnique(frames: seq<Frame>, bet: int, p: Problem, q: Problem)
    requires Explains(frames, bet, p) && Explains(frames, bet, q)
    ensures p == q
  {
    hide CumulativeWin, Offers, FrameFine, Lower;
    FaultAt(frames, bet, p);
    FaultAt(frames, bet, q);
  }

  ghost predicate FinePrefix(frames: seq<Frame>, n: nat) {
    n <= |frames| && forall i | 0 <= i < n :: FrameFine(frames, i)
  }

  ghost predicate FineUpTo(frames: seq<Frame>, at: nat) {
    at < |frames| && FinePrefix(frames, at)
  }

  method ValidateCommonRound(frames: seq<Frame>, bet: int) returns (verdict: Verdict)
    ensures verdict.Accepted? <==> Acceptable(frames, bet)
    ensures verdict.Rejected? ==> Explains(frames, bet, verdict.problem)
    ensures verdict.Accepted? ==> LastWin(frames) == Some(verdict.win) && |verdict.wins| == |frames|
    ensures verdict.Accepted? ==> forall i | 0 <= i < |frames| :: CumulativeWin(frames[i]) == Some(verdict.wins[i])
  {
    if frames == [] { return Rejected(NoFrames); }
    if bet <= 0 { return Rejected(BadBet); }
    if Lower(frames[0].lastAction) !in {"spin", "buy_spin"} { return Rejected(BadOpening); }
    var wins: seq<nat> := [];
    var previous: nat := 0;
    var index := 0;
    while index < |frames|
      invariant 0 <= index <= |frames| && |wins| == index
      invariant forall i | 0 <= i < index :: CumulativeWin(frames[i]) == Some(wins[i])
      invariant previous == if index == 0 then 0 else wins[index - 1]
      invariant FinePrefix(frames, index)
    {
      var frame := frames[index];
      assert Acceptable(frames, bet) ==> FrameFine(frames, index);
      if !frame.ok { return Rejected(BadStatus(index)); }
      var current := CumulativeWin(frame);
      if current.None? { return Rejected(NoWin(index)); }
      if current.value < previous { return Rejected(WinFell(index)); }
      wins := wins + [current.value];
      previous := current.value;
      if index > 0 {
        if !Offers(frames[index - 1], Lower(frame.lastAction)) { return Rejected(NotOffered(index)); }
      }
      index := index + 1;
    }
    var last := frames[|frames| - 1];
    if last.finished != Yes { return Rejected(Unfinished); }
    if !Offers(last, "spin") { return Rejected(NoSpin); }
    var win := RoundWin(frames);
    return Accepted(win.value, wins);
  }

  lemma {:induction false} WinsRise(frames: seq<Frame>, bet: int, i: nat, j: nat)
    requires Acceptable(frames, bet) && i <= j < |frames|
    ensures CumulativeWin(frames[i]).Some? && CumulativeWin(frames[j]).Some?
    ensures CumulativeWin(frames[i]).value <= CumulativeWin(frames[j]).value
    decreases j - i
  {
    assert FrameFine(frames, i) && FrameFine(frames, j);
    if i < j {
      assert FrameFine(frames, i + 1);
      WinsRise(frames, bet, i + 1, j);
    }
  }

  /** An accepted round pays what its last frame says, which is the most any of its frames says. */
  lemma AcceptedRoundPaysItsMost(frames: seq<Frame>, bet: int, i: nat, j: nat)
    requires Acceptable(frames, bet) && i <= j < |frames|
    ensures CumulativeWin(frames[i]).Some? && CumulativeWin(frames[j]).Some? && LastWin(frames).Some?
    ensures CumulativeWin(frames[i]).value <= CumulativeWin(frames[j]).value <= LastWin(frames).value
    ensures LastWin(frames) == CumulativeWin(frames[|frames| - 1])
  {
    hide CumulativeWin, FrameFine, Acceptable;
    WinsRise(frames, bet, i, j);
    WinsRise(frames, bet, j, |frames| - 1);
  }

  // ----- letter case -----

  /** The same text up to the case of its letters. */
  ghost predicate SameLetters(s: string, t: string) {
    |s| == |t| && forall i | 0 <= i < |s| ::
      || s[i] == t[i]
      || ('A' <= s[i] <= 'Z' && t[i] as int == s[i] as int + 32)
      || ('A' <= t[i] <= 'Z' && s[i] as int == t[i] as int + 32)
  }

  lemma LowerIff(s: string, t: string)
    ensures Lower(s) == Lower(t) <==> SameLetters(s, t)
  {
    assert |Lower(s)| == |s| && |Lower(t)| == |t|;
    assert forall i | 0 <= i < |s| :: Lower(s)[i] == LowerChar(s[i]);
    assert forall i | 0 <= i < |t| :: Lower(t)[i] == LowerChar(t[i]);
  }

  /** The same frame up to the case of the letters in its action and in what it offers. */
  ghost predicate SameFrame(f: Frame, g: Frame) {
    && f.(lastAction := g.lastAction, offers := g.offers) == g
    && SameLetters(f.lastAction, g.lastAction)
    && |f.offers| == |g.offers| && forall i | 0 <= i < |f.offers| :: SameLetters(f.offers[i].Shown(), g.offers[i].Shown())
  }

  lemma SameOffers(f: Frame, g: Frame, name: string)
    requires SameFrame(f, g)
    ensures Offers(f, name) <==> Offers(g, name)
  {
    hide Lower, SameLetters;
    forall i | 0 <= i < |f.offers| ensures Lower(f.offers[i].Shown()) == Lower(g.offers[i].Shown()) {
      LowerIff(f.offers[i].Shown(), g.offers[i].Shown());
    }
    if i :| 0 <= i < |f.offers| && Lower(f.offers[i].Shown()) == name { assert Lower(g.offers[i].Shown()) == name; }
    if i :| 0 <= i < |g.offers| && Lower(g.offers[i].Shown()) == name { assert Lower(f.offers[i].Shown()) == name; }
  }

  /** Whether a round is accepted does not depend on the case of the letters in actions and offers. */
  lemma CaseDoesNotMatter(frames: seq<Frame>, others: seq<Frame>, bet: int)
    requires |frames| == |others| && forall i | 0 <= i < |frames| :: SameFrame(frames[i], others[i])
    ensures Acceptable(frames, bet) <==> Acceptable(others, bet)
  {
    hide Lower, SameLetters, Offers;
    forall i | 0 <= i < |frames|
      ensures Lower(frames[i].lastAction) == Lower(others[i].lastAction)
      ensures CumulativeWin(frames[i]) == CumulativeWin(others[i])
      ensures forall name :: Offers(frames[i], name) <==> Offers(others[i], name)
    {
      LowerIff(frames[i].lastAction, others[i].lastAction);
      forall name ensures Offers(frames[i], name) <==> Offers(others[i], name) { SameOffers(frames[i], others[i], name); }
    }
    assert forall i | 0 <= i < |frames| :: FrameFine(frames, i) <==> FrameFine(others, i);
  }

  /** A server that names in every answer the action it answers. */
  ghost predicate Echoes(server: Server, action: string) {
    forall sent {:trigger server.reply(sent)} |
      sent != [] && server.reply(sent).Some? ::
        |sent| > 1 ==> server.reply(sent).value.lastAction == sent[|sent| - 1]
  }

  /** A round played to its end never fails the check that every action was on offer. */
  lemma PlayedActionsAreOffered(server: Server, action: string, frames: seq<Frame>, i: nat)
    requires Answers(server, action, frames) && Echoes(server, action) && 0 < i < |frames|
    ensures Offers(frames[i - 1], Lower(frames[i].lastAction))
  {
    var name := NextAction(frames[i - 1]).value;
    var sent := Sent(action, frames[..i]);
    assert AnswersAt(server, action, frames, i);
    assert sent[|sent| - 1] == name;
    FirstMoveOffered(frames[i - 1].offers);
    var k :| 0 <= k < |frames[i - 1].offers| && frames[i - 1].offers[k] == Text(name);
    assert frames[i - 1].offers[k].Shown() == name;
  }
}
