/**
 The request journal: an official request whose outcome is unknown is never sent again, and a confirmed answer is
 replayed for good. A request in compact form asks for its permit without looking at the journal.
 */
module RequestJournal {
  import opened Base
  import opened CoordinatorTypes
  import opened CoordinatorSteps
  import EgressSafety

  /** A request for a permit for the key that carries the request in full, and so is journalled. */
  predicate AsksInFull(op: Op, slug: Slug, key: RequestKey) {
    op.Permits? && op.slug == slug && op.key == key ==> op.full
  }

  ghost predicate GrantsKey(s: State, r: Request, slug: Slug, key: RequestKey) {
    r.op.Permits? && r.op.slug == slug && r.op.key == key && r.op.full && Step(s, r).1 == Granted
  }

  /** A recorded answer that was not confirmed as a success: a non-2xx, or not marked usable. */
  ghost predicate FailsKey(s: State, r: Request, slug: Slug, key: RequestKey) {
    && r.op.Response? && r.op.slug == slug && r.op.key == key && Step(s, r).1.Recorded?
    && r.op.outcome.Full? && r.op.outcome.response.Some?
    && !Entry(r.op.outcome.response, UsableOf(r.op.outcome, r.op.usable)).Replayable()
  }

  ghost predicate Reissuable(s: State, slug: Slug, key: RequestKey) {
    (slug, key) in s.journal ==>
      s.journal[(slug, key)].response.Some? && !s.journal[(slug, key)].Replayable()
  }

  ghost predicate Unknown(s: State, slug: Slug, key: RequestKey) {
    (slug, key) in s.journal && s.journal[(slug, key)].response.None?
  }

  ghost predicate OutFor(s: State, slug: Slug, key: RequestKey) {
    key in s.gate.permits && s.gate.permits[key].slug == slug
  }

  /** A permit that is out belongs to a request whose outcome is still unknown. */
  ghost predicate JournalInv(s: State, slug: Slug, key: RequestKey) {
    OutFor(s, slug, key) ==> Unknown(s, slug, key)
  }

  /** A grant needs a key that is open and closes it; only a recorded failure opens it again. */
  lemma OpenStep(s: State, r: Request, slug: Slug, key: RequestKey)
    ensures var s' := Step(s, r).0;
      && (GrantsKey(s, r, slug, key) ==> Reissuable(s, slug, key) && !Reissuable(s', slug, key))
      && (!GrantsKey(s, r, slug, key) && !FailsKey(s, r, slug, key) && Reissuable(s', slug, key) ==>
            Reissuable(s, slug, key))
  {
    hide Step, Enqueue, Dequeue, Throttled, ReleaseNode;
    if r.op.Begin? { EgressSafety.BeginPermits(s, r); } else { EgressSafety.GateCases(s, r); }
  }

  /** While every permit for the key is journalled, one that is out stands for an unknown outcome. */
  lemma JournalKept(s: State, r: Request, slug: Slug, key: RequestKey)
    requires AsksInFull(r.op, slug, key) && JournalInv(s, slug, key)
    ensures JournalInv(Step(s, r).0, slug, key)
  {
    hide Step, Enqueue, Dequeue, Throttled, ReleaseNode;
    if r.op.Begin? {
      EgressSafety.BeginPermits(s, r);
    } else {
      EgressSafety.GateCases(s, r);
      if r.op.Response? && Step(s, r).1.Recorded? { ResponsePermits(s, r); }
    }
  }

  lemma ResponsePermits(s: State, r: Request)
    requires r.op.Response? && Step(s, r).1.Recorded?
    ensures Step(s, r).0.gate.permits == s.gate.permits - {r.op.key}
    ensures Settles(s, r, r.op.slug, r.op.key)
  {
    hide Step, Window, NodesOf, ReleaseNode;
    EgressSafety.ResponseIs(s, r);
  }

  lemma {:induction false} JournalAt(states: seq<State>, rs: seq<Request>, slug: Slug, key: RequestKey, n: nat)
    requires Behavior(states, rs) && n < |states| && JournalInv(states[0], slug, key)
    requires forall j {:trigger rs[j]} | 0 <= j < |rs| :: AsksInFull(rs[j].op, slug, key)
    ensures JournalInv(states[n], slug, key)
    decreases n
  {
    hide Step, JournalInv, AsksInFull;
    if n > 0 {
      JournalAt(states, rs, slug, key, n - 1);
      JournalKept(states[n - 1], rs[n - 1], slug, key);
    }
  }

  ghost function GrantCount(states: seq<State>, rs: seq<Request>, slug: Slug, key: RequestKey, i: nat, n: nat): nat
    requires Behavior(states, rs) && i <= n <= |rs|
    decreases n
  {
    if n == i then 0
    else GrantCount(states, rs, slug, key, i, n - 1) + if GrantsKey(states[n - 1], rs[n - 1], slug, key) then 1 else 0
  }

  ghost function FailureCount(states: seq<State>, rs: seq<Request>, slug: Slug, key: RequestKey, i: nat, n: nat): nat
    requires Behavior(states, rs) && i <= n <= |rs|
    decreases n
  {
    if n == i then 0
    else FailureCount(states, rs, slug, key, i, n - 1) + if FailsKey(states[n - 1], rs[n - 1], slug, key) then 1 else 0
  }

  /**
   Over any stretch of any history, across runs and beside requests in compact form: the journalled grants of a key exceed
   the answers recorded for it that are not a confirmed success by at most the one for a key that was open at its start.
   */
  lemma {:induction false} NoBlindReissue(states: seq<State>, rs: seq<Request>, slug: Slug, key: RequestKey, i: nat, n: nat)
    requires Behavior(states, rs) && i <= n <= |rs|
    ensures GrantCount(states, rs, slug, key, i, n) + (if Reissuable(states[n], slug, key) then 1 else 0)
         <= FailureCount(states, rs, slug, key, i, n) + (if Reissuable(states[i], slug, key) then 1 else 0)
    decreases n
  {
    hide Step, GrantsKey, FailsKey, Reissuable;
    if i < n {
      NoBlindReissue(states, rs, slug, key, i, n - 1);
      OpenStep(states[n - 1], rs[n - 1], slug, key);
      NotBoth(states[n - 1], rs[n - 1], slug, key);
    }
  }

  lemma NotBoth(s: State, r: Request, slug: Slug, key: RequestKey)
    ensures !(GrantsKey(s, r, slug, key) && FailsKey(s, r, slug, key))
  {
    hide Step;
  }

  /** Two journalled grants of one key always have a recorded failure between them. */
  lemma GrantsAreSeparated(states: seq<State>, rs: seq<Request>, slug: Slug, key: RequestKey, i: nat, k: nat)
    requires Behavior(states, rs) && i < k < |rs|
    ensures GrantsKey(states[i], rs[i], slug, key) && GrantsKey(states[k], rs[k], slug, key) ==>
      exists j :: i < j < k && FailsKey(states[j], rs[j], slug, key)
  {
    hide Step, GrantsKey, Reissuable, FailsKey;
    if GrantsKey(states[i], rs[i], slug, key) && GrantsKey(states[k], rs[k], slug, key) {
      OpenStep(states[i], rs[i], slug, key);
      OpenStep(states[k], rs[k], slug, key);
      assert Reissuable(states[k], slug, key) && !Reissuable(states[i + 1], slug, key);
      NoBlindReissue(states, rs, slug, key, i + 1, k);
      FailureExists(states, rs, slug, key, i + 1, k);
    }
  }

  lemma {:induction false} FailureExists(states: seq<State>, rs: seq<Request>, slug: Slug, key: RequestKey, i: nat, n: nat)
    requires Behavior(states, rs) && i <= n <= |rs| && FailureCount(states, rs, slug, key, i, n) > 0
    ensures exists j :: i <= j < n && FailsKey(states[j], rs[j], slug, key)
    decreases n
  {
    hide Step, FailsKey;
    if !FailsKey(states[n - 1], rs[n - 1], slug, key) {
      FailureExists(states, rs, slug, key, i, n - 1);
    }
  }

  lemma PermitAnswers(s: State, r: Request, slug: Slug, key: RequestKey)
    requires r.op.Permits? && r.op.slug == slug && r.op.key == key && r.op.full && (slug, key) in s.journal
    ensures s.journal[(slug, key)].Replayable() ==>
      Step(s, r).1 in {Cached(s.journal[(slug, key)].response.value), Refused, Halted}
    ensures s.journal[(slug, key)].response.None? ==> Step(s, r).1 in {Refused, Halted}
    ensures s.journal[(slug, key)].Replayable() || s.journal[(slug, key)].response.None? ==> Step(s, r).0 == s
  {
    hide Step, Enqueue, Dequeue;
    EgressSafety.PermitIs(s, r);
  }

  /** An answer that carries the response is recorded for the key. */
  ghost predicate AnswersInFull(s: State, r: Request, slug: Slug, key: RequestKey) {
    r.op.Response? && r.op.slug == slug && r.op.key == key && r.op.outcome.Full? && Step(s, r).1.Recorded?
  }

  /** A record that no permit may reissue changes only with an answer in full. */
  lemma RecordKept(s: State, r: Request, slug: Slug, key: RequestKey)
    requires !Reissuable(s, slug, key) && !AnswersInFull(s, r, slug, key)
    ensures (slug, key) in Step(s, r).0.journal && Step(s, r).0.journal[(slug, key)] == s.journal[(slug, key)]
  {
    hide Step, Enqueue, Dequeue, Throttled, ReleaseNode;
    if r.op.Begin? { EgressSafety.BeginPermits(s, r); } else { EgressSafety.GateCases(s, r); }
  }

  lemma {:induction false} RecordKeptOver(states: seq<State>, rs: seq<Request>, slug: Slug, key: RequestKey, i: nat, n: nat)
    requires Behavior(states, rs) && i <= n <= |rs| && !Reissuable(states[i], slug, key)
    requires forall k {:trigger rs[k]} | i <= k < |rs| && k < n :: !AnswersInFull(states[k], rs[k], slug, key)
    ensures (slug, key) in states[n].journal && states[n].journal[(slug, key)] == states[i].journal[(slug, key)]
    decreases n
  {
    hide Step, AnswersInFull;
    if i < n {
      RecordKeptOver(states, rs, slug, key, i, n - 1);
      RecordKept(states[n - 1], rs[n - 1], slug, key);
    }
  }

  /**
   After a confirmed success every later journalled request for the key is answered with that same response, as long as no
   further answer in full is recorded for it.
   */
  lemma ConfirmedAnswersAreReplayed(states: seq<State>, rs: seq<Request>, slug: Slug, key: RequestKey, i: nat, n: nat)
    requires Behavior(states, rs) && i <= n <= |rs|
    requires (slug, key) in states[i].journal && states[i].journal[(slug, key)].Replayable()
    requires forall k {:trigger rs[k]} | i <= k < |rs| && k < n :: !AnswersInFull(states[k], rs[k], slug, key)
    ensures (slug, key) in states[n].journal && states[n].journal[(slug, key)] == states[i].journal[(slug, key)]
    ensures n < |rs| && rs[n].op.Permits? && rs[n].op.slug == slug && rs[n].op.key == key && rs[n].op.full ==>
      Step(states[n], rs[n]).1 in {Cached(states[i].journal[(slug, key)].response.value), Refused, Halted}
  {
    hide Step, AnswersInFull;
    RecordKeptOver(states, rs, slug, key, i, n);
    if n < |rs| && rs[n].op.Permits? && rs[n].op.slug == slug && rs[n].op.key == key && rs[n].op.full {
      PermitAnswers(states[n], rs[n], slug, key);
    }
  }

  /** A key whose answer is unknown stays refused, across `end` and `begin`, as long as no answer in full is recorded. */
  lemma LostRequestsStayRefused(states: seq<State>, rs: seq<Request>, slug: Slug, key: RequestKey, i: nat, n: nat)
    requires Behavior(states, rs) && i <= n <= |rs| && Unknown(states[i], slug, key)
    requires forall k {:trigger rs[k]} | i <= k < |rs| && k < n :: !AnswersInFull(states[k], rs[k], slug, key)
    ensures Unknown(states[n], slug, key)
    ensures n < |rs| && rs[n].op.Permits? && rs[n].op.slug == slug && rs[n].op.key == key && rs[n].op.full ==>
      Step(states[n], rs[n]).1 in {Refused, Halted} && states[n + 1] == states[n]
  {
    hide Step, AnswersInFull;
    RecordKeptOver(states, rs, slug, key, i, n);
    if n < |rs| && rs[n].op.Permits? && rs[n].op.slug == slug && rs[n].op.key == key && rs[n].op.full {
      PermitAnswers(states[n], rs[n], slug, key);
    }
  }

  /** Nothing can be recorded for the key any more: it is settled for good, or its permit is gone. */
  ghost predicate Final(s: State, slug: Slug, key: RequestKey) {
    !Reissuable(s, slug, key) && !OutFor(s, slug, key)
  }

  lemma FinalStep(s: State, r: Request, slug: Slug, key: RequestKey)
    requires AsksInFull(r.op, slug, key) && Final(s, slug, key)
    ensures !AnswersInFull(s, r, slug, key) && Final(Step(s, r).0, slug, key)
  {
    hide Step, Reissuable;
    EgressSafety.KeyCases(s, r, key);
    OpenStep(s, r, slug, key);
    if !AnswersInFull(s, r, slug, key) {
      RecordKept(s, r, slug, key);
      SameRecord(s, Step(s, r).0, slug, key);
    }
  }

  lemma SameRecord(s: State, s': State, slug: Slug, key: RequestKey)
    requires !Reissuable(s, slug, key)
    requires (slug, key) in s'.journal && s'.journal[(slug, key)] == s.journal[(slug, key)]
    ensures !Reissuable(s', slug, key)
  {
  }

  /**
   When every permit for the key is asked for in full, a confirmed answer is final, and so is an unknown outcome once its
   permit is gone: no answer is recorded after it, in this run or any other.
   */
  lemma {:induction false} FullFormIsFinal(states: seq<State>, rs: seq<Request>, slug: Slug, key: RequestKey, i: nat, n: nat)
    requires Behavior(states, rs) && i <= n <= |rs| && JournalInv(states[0], slug, key)
    requires forall j {:trigger rs[j]} | 0 <= j < |rs| :: AsksInFull(rs[j].op, slug, key)
    requires !Reissuable(states[i], slug, key) && (Unknown(states[i], slug, key) ==> !OutFor(states[i], slug, key))
    ensures Final(states[n], slug, key)
    ensures forall k {:trigger rs[k]} | i <= k < |rs| && k < n :: !AnswersInFull(states[k], rs[k], slug, key)
    decreases n
  {
    hide Step, AnswersInFull, JournalInv, AsksInFull;
    if i < n {
      FullFormIsFinal(states, rs, slug, key, i, n - 1);
      FinalStep(states[n - 1], rs[n - 1], slug, key);
    } else {
      JournalAt(states, rs, slug, key, i);
      SettledIsFinal(states[i], slug, key);
    }
  }

  lemma SettledIsFinal(s: State, slug: Slug, key: RequestKey)
    requires JournalInv(s, slug, key) && !Reissuable(s, slug, key) && (Unknown(s, slug, key) ==> !OutFor(s, slug, key))
    ensures Final(s, slug, key)
  {
  }
}
