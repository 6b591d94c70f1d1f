/**
 How two shards share what is missing of a mode, when anything but another report for the game can happen between their
 two reservations: claims, permits, stored rounds, returned leases, halted nodes and acceptances.
 */
module ShardSplit {
  import opened Base
  import opened CoordinatorTypes
  import opened CoordinatorSteps
  import opened QuotaSafety
  import LeaseSafety

  /** The record between the two reservations: the first shard's stands with `left` still open, or none does. */
  ghost predicate Between(record: Option<Frozen>, first: Worker, mode: Mode, targets: map<Mode, nat>, one: nat, left: nat) {
    record.Some? ==>
      var f := record.value;
      && f.targets == targets && f.reservations.Keys <= {first}
      && (first in f.reservations ==>
            mode in f.reservations[first].reserved && f.reservations[first].reserved[mode] == one && Gap(f, mode) == left)
  }

  ghost predicate Stands(s: State, slug: Slug, worker: Worker) {
    RecordOf(s.board, slug).Some? && worker in RecordOf(s.board, slug).value.reservations
  }

  lemma BetweenStep(s: State, r: Request, slug: Slug, first: Worker, mode: Mode, targets: map<Mode, nat>, one: nat, left: nat)
    requires !r.op.Begin? && !TakesReport(s, r, slug)
    requires Between(RecordOf(s.board, slug), first, mode, targets, one, left)
    requires Stands(s, slug, first) ==> Disciplined(s, r, slug, mode)
    ensures Between(RecordOf(Step(s, r).0.board, slug), first, mode, targets, one, left)
  {
    hide Step, Credit, Fresh, Known, Outstanding, TakesReport, UnderLease, ValidBatch, Loses;
    RecordCases(s, r, slug);
    var f, f' := RecordOf(s.board, slug), RecordOf(Step(s, r).0.board, slug);
    if Stores(s, r, slug) && f.Some? {
      var added := Fresh(r.op.docs, Known(s.disk, slug, s.daemon));
      CreditOwners(f.value, r.worker, added);
      LeaseSafety.CreditGrows(f.value, r.worker, added);
      if first in f.value.reservations { GapStays(f.value, r.worker, added, mode); }
    } else if f.Some? && f'.Some? {
      var workers := Loses(s, r, slug);
      assert first !in workers ==> f.value.reservations - workers == f.value.reservations;
    }
  }

  lemma {:induction false} BetweenAt(states: seq<State>, rs: seq<Request>, slug: Slug, first: Worker, mode: Mode,
                                     targets: map<Mode, nat>, one: nat, left: nat, i: nat, j: nat)
    requires Behavior(states, rs) && i <= j <= |rs|
    requires Between(RecordOf(states[i].board, slug), first, mode, targets, one, left)
    requires forall k {:trigger rs[k]} | i <= k < |rs| && k < j ::
      !rs[k].op.Begin? && !TakesReport(states[k], rs[k], slug)
      && (Stands(states[k], slug, first) ==> Disciplined(states[k], rs[k], slug, mode))
    ensures Between(RecordOf(states[j].board, slug), first, mode, targets, one, left)
    decreases j
  {
    hide Step, TakesReport, Disciplined, Between;
    if i < j {
      BetweenAt(states, rs, slug, first, mode, targets, one, left, i, j - 1);
      BetweenStep(states[j - 1], rs[j - 1], slug, first, mode, targets, one, left);
    }
  }

  /** What a mode lacks for a worker that finds no reservation: the target less the larger of its own and the known count. */
  ghost function Lacking(s: State, r: Request, slug: Slug, mode: Mode): nat
    requires r.op.ReserveModes?
  {
    var known := if RecordOf(s.board, slug).Some? then Get(RecordOf(s.board, slug).value.counts, mode, 0) else 0;
    Max(0, Get(Clamped(r.op.targets), mode, 0) as int - Max(known, ReportOf(r, mode)))
  }

  /** The rounds of a mode that a worker has reserved. */
  ghost function ReservedBy(s: State, slug: Slug, worker: Worker, mode: Mode): nat {
    if Stands(s, slug, worker) then Get(RecordOf(s.board, slug).value.reservations[worker].reserved, mode, 0) else 0
  }

  /** A worker that finds no reservation takes half of what is lacking, rounded up, and leaves the other half. */
  lemma FirstTakes(s: State, r: Request, slug: Slug, mode: Mode)
    requires TakesReport(s, r, slug) && s.topology.maxShards == 2 && mode != 0 && mode in r.op.targets
    requires RecordOf(s.board, slug).Some? ==> RecordOf(s.board, slug).value.reservations == map[]
    ensures var s' := Step(s, r).0; var lacking := Lacking(s, r, slug, mode);
      && Stands(s', slug, r.worker) && ReservedBy(s', slug, r.worker, mode) == (lacking + 1) / 2
      && Between(RecordOf(s'.board, slug), r.worker, mode, Clamped(r.op.targets), (lacking + 1) / 2, lacking / 2)
  {
    hide Step, Reserved;
    assert !r.op.Begin?;
    RecordCases(s, r, slug);
    var q := Get(s.board.quotas, slug, NO_QUOTA);
    FirstShare(q, r.worker, r.op.counts, r.op.targets, mode);
    LackingIs(s, r, slug, mode);
  }

  lemma LackingIs(s: State, r: Request, slug: Slug, mode: Mode)
    requires TakesReport(s, r, slug)
    requires RecordOf(s.board, slug).Some? ==> RecordOf(s.board, slug).value.reservations == map[]
    ensures Gap(Reported(Get(s.board.quotas, slug, NO_QUOTA), r.op.counts, r.op.targets), mode) == Lacking(s, r, slug, mode)
  {
    var f := Reported(Get(s.board.quotas, slug, NO_QUOTA), r.op.counts, r.op.targets);
    assert f.reservations == map[];
  }

  lemma SameRecord(q: Quota, q': Quota, worker: Worker, counts: map<Mode, int>, targets: map<Mode, int>, maxShards: pos)
    requires q.frozen == q'.frozen
    ensures Reserved(q, worker, counts, targets, maxShards).frozen == Reserved(q', worker, counts, targets, maxShards).frozen
  {
    hide AllMet, ReservationOf;
  }

  /**
   The split over a history. The first shard reserves at `i`, with no reservation standing, and the second at `j`. As long as
   no other report for the game is taken in between and the first shard keeps to its reservation while it stands: the first
   takes ceil(r / 2) of the r rounds lacking. If its reservation still stands at `j`, the second takes floor(r / 2), less
   what its report exceeds the known count by, whatever the first has stored; so the two make exactly r if and only if the
   second reports no more than is known or has nothing to take. If the reservation was taken back, by a returned lease, a
   halted node or an acceptance, the second is treated like a first one, over what is lacking then. Nothing else matters.
   */
  lemma SplitOverHistory(states: seq<State>, rs: seq<Request>, slug: Slug, mode: Mode, i: nat, j: nat)
    requires Behavior(states, rs) && i < j < |rs| && mode != 0
    requires TakesReport(states[i], rs[i], slug) && TakesReport(states[j], rs[j], slug) && rs[i].worker != rs[j].worker
    requires mode in rs[i].op.targets && mode in rs[j].op.targets
    requires states[i].topology.maxShards == 2 && states[j].topology.maxShards == 2
    requires RecordOf(states[i].board, slug).Some? ==> RecordOf(states[i].board, slug).value.reservations == map[]
    requires forall k {:trigger rs[k]} | i < k < |rs| && k < j ::
      !rs[k].op.Begin? && !TakesReport(states[k], rs[k], slug)
      && (Stands(states[k], slug, rs[i].worker) ==> Disciplined(states[k], rs[k], slug, mode))
    ensures var lacking := Lacking(states[i], rs[i], slug, mode);
      var one := ReservedBy(states[i + 1], slug, rs[i].worker, mode);
      var two := ReservedBy(states[j + 1], slug, rs[j].worker, mode);
      && one == (lacking + 1) / 2
      && (if Stands(states[j], slug, rs[i].worker) then
            var excess := Max(0, ReportOf(rs[j], mode) as int - Get(RecordOf(states[j].board, slug).value.counts, mode, 0));
            two == Max(0, lacking / 2 - excess) && (one + two == lacking <==> excess == 0 || lacking / 2 == 0)
          else two == (Lacking(states[j], rs[j], slug, mode) + 1) / 2)
  {
    hide Step, TakesReport, Disciplined, Between, Lacking, Reserved;
    TakesIs(states[i], rs[i], slug);
    TakesIs(states[j], rs[j], slug);
    var first, lacking := rs[i].worker, Lacking(states[i], rs[i], slug, mode);
    FirstTakes(states[i], rs[i], slug, mode);
    BetweenAt(states, rs, slug, first, mode, Clamped(rs[i].op.targets), (lacking + 1) / 2, lacking / 2, i + 1, j);
    if Stands(states[j], slug, first) {
      SecondTakes(states[j], rs[j], slug, first, mode, Clamped(rs[i].op.targets), (lacking + 1) / 2, lacking / 2);
    } else {
      NoneStands(states[j], slug, first, mode, Clamped(rs[i].op.targets), (lacking + 1) / 2, lacking / 2);
      FirstTakes(states[j], rs[j], slug, mode);
    }
  }

  lemma TakesIs(s: State, r: Request, slug: Slug)
    requires TakesReport(s, r, slug)
    ensures r.op.ReserveModes? && r.op.slug == slug && ValidReport(r.op.counts, r.op.targets)
    ensures RecordOf(s.board, slug).Some? ==> RecordOf(s.board, slug).value.targets == Clamped(r.op.targets)
  {
  }

  lemma NoneStands(s: State, slug: Slug, first: Worker, mode: Mode, targets: map<Mode, nat>, one: nat, left: nat)
    requires Between(RecordOf(s.board, slug), first, mode, targets, one, left) && !Stands(s, slug, first)
    ensures RecordOf(s.board, slug).Some? ==> RecordOf(s.board, slug).value.reservations == map[]
  {
  }

  lemma SecondTakes(s: State, r: Request, slug: Slug, first: Worker, mode: Mode, targets: map<Mode, nat>, one: nat, left: nat)
    requires TakesReport(s, r, slug) && s.topology.maxShards == 2 && mode != 0 && mode in r.op.targets && r.worker != first
    requires Between(RecordOf(s.board, slug), first, mode, targets, one, left) && Stands(s, slug, first)
    ensures ReservedBy(Step(s, r).0, slug, r.worker, mode)
         == Max(0, left - Max(0, ReportOf(r, mode) as int - Get(RecordOf(s.board, slug).value.counts, mode, 0)))
  {
    hide Step, Reserved, Gap, UnderLease;
    assert !r.op.Begin?;
    RecordCases(s, r, slug);
    var q, f := Get(s.board.quotas, slug, NO_QUOTA), RecordOf(s.board, slug).value;
    SecondShare(f, first, r.worker, r.op.counts, r.op.targets, mode);
    SameRecord(q, Quota(Some(f), false, false, {}, false), r.worker, r.op.counts, r.op.targets, 2);
    ReservedHolds(q, r.worker, r.op.counts, r.op.targets, 2);
  }

  lemma ReservedHolds(q: Quota, worker: Worker, counts: map<Mode, int>, targets: map<Mode, int>, maxShards: pos)
    ensures var frozen := Reserved(q, worker, counts, targets, maxShards).frozen;
      frozen.Some? && worker in frozen.value.reservations
  {
    hide AllMet, ReservationOf;
  }
}
