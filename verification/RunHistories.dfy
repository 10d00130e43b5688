/** What whole histories of the scheduler leave in the store: which run comes next, what a device and
    a run end with, and what becomes of a run that a crash interrupts. */
module RunHistories {
  import opened Farm
  import opened Runs
  import opened RunMachine

  // ----- a run that a crash interrupts -----

  /** What recovery makes of a device row. */
  function Recovered(s: RunStatus): RunStatus { if s.Pending? || s.Running? then Errored else s }

  /** Between the crash and the end of its recovery: each row is as it was or recovered already. */
  ghost predicate Interrupted(w: World, id: nat, rows: map<Dev, RunStatus>) {
    && id < |w.runs| && w.runs[id].devices.Keys == rows.Keys
    && (forall d :: d in rows ==> w.runs[id].devices[d] == rows[d] || w.runs[id].devices[d] == Recovered(rows[d]))
    && (w.runs[id].status.Running? || w.runs[id].status == Errored)
    && (w.runs[id].status.Running? ==>
          w.sched.Down? || w.sched.Recovering? || w.sched.RecoveredRows? || w.sched.RecoveredRun?)
    && (w.runs[id].status == Errored || (w.sched.RecoveredRows? && w.sched.id == id) ==>
          forall d :: d in rows ==> w.runs[id].devices[d] == Recovered(rows[d]))
  }

  lemma InterruptedStays(w: World, a: Step, id: nat, rows: map<Dev, RunStatus>)
    requires Inv(w) && Enabled(w, a) && Interrupted(w, id, rows)
    ensures Interrupted(Apply(w, a), id, rows)
  {
    assert forall i: nat :: i in Orphans(w.runs) <==> i < |w.runs| && w.runs[i].status.Running?;
    hide Inv, Orphans, Verdict;
    assert GoodSched(w.runs, w.sched) by { InvMeansSched(w); }
    match a
    case RecoverRows(i) => RowsRecovered(w, a, id, rows);
    case _ =>
  }

  lemma InvMeansSched(w: World)
    requires Inv(w)
    ensures GoodSched(w.runs, w.sched)
  {}

  lemma RowsRecovered(w: World, a: Step, id: nat, rows: map<Dev, RunStatus>)
    requires GoodSched(w.runs, w.sched) && Enabled(w, a) && a.RecoverRows? && Interrupted(w, id, rows)
    ensures Interrupted(Apply(w, a), id, rows)
  {}

  /** A run that is running when the process dies is running no longer only once it is recorded as
      an error, with every device that had not finished an error and every finished one as it was. */
  lemma {:induction false} InterruptedRunIsError(ws: seq<World>, steps: seq<Step>, m: nat, n: nat, id: nat)
    requires Execution(ws, steps) && m < n < |ws| && steps[m].Crash?
    requires id < |ws[m].runs| && ws[m].runs[id].status.Running?
    ensures Interrupted(ws[n], id, ws[m].runs[id].devices)
    ensures !ws[n].runs[id].status.Running? ==>
      && ws[n].runs[id].status == Errored
      && ws[n].runs[id].devices.Keys == ws[m].runs[id].devices.Keys
      && forall d :: d in ws[m].runs[id].devices ==>
           ws[n].runs[id].devices[d] ==
             var was := ws[m].runs[id].devices[d]; if was.Pending? || was.Running? then Errored else was
    decreases n
  {
    var k := n - 1;
    assert ws[k + 1] == Apply(ws[k], steps[k]);
    if m < k {
      InterruptedRunIsError(ws, steps, m, k, id);
      ReachableInv(ws, steps, k);
      InterruptedStays(ws[k], steps[k], id, ws[m].runs[id].devices);
    }
  }

  // ----- what ends up in the rows -----

  lemma FinishedRowStays(w: World, a: Step, id: nat, d: Dev)
    requires Inv(w) && Enabled(w, a) && id < |w.runs| && d in w.runs[id].devices && Terminal(w.runs[id].devices[d])
    ensures var w' := Apply(w, a);
      id < |w'.runs| && d in w'.runs[id].devices && w'.runs[id].devices[d] == w.runs[id].devices[d]
  {
    hide GoodBatches, Verdict;
    if a.StartDevice? || a.EndDevice? {
      assert w.sched.id in Orphans(w.runs);
    }
  }

  /** The verdict a device ends with is what its row says from then on, crashes or not. */
  lemma {:induction false} VerdictIsKept(ws: seq<World>, steps: seq<Step>, m: nat, n: nat)
    requires Execution(ws, steps) && m < n < |ws| && steps[m].EndDevice?
    ensures var id, d := ws[m].sched.id, steps[m].d;
      id < |ws[n].runs| && d in ws[n].runs[id].devices && ws[n].runs[id].devices[d] == steps[m].verdict
    decreases n
  {
    var k := n - 1;
    var id, d := ws[m].sched.id, steps[m].d;
    assert ws[k + 1] == Apply(ws[k], steps[k]);
    ReachableInv(ws, steps, k);
    if m < k {
      VerdictIsKept(ws, steps, m, k);
      FinishedRowStays(ws[k], steps[k], id, d);
    } else {
      assert id in Orphans(ws[m].runs);
    }
  }

  /** A run that is executed to its end gets the status its rows call for, and nothing else changes. */
  lemma StatusFollowsRows(ws: seq<World>, steps: seq<Step>, n: nat)
    requires Execution(ws, steps) && n < |steps| && steps[n].Finish?
    ensures var id, runs, runs' := ws[n].sched.id, ws[n].runs, ws[n + 1].runs;
      && id < |runs| == |runs'|
      && (forall i :: 0 <= i < |runs| && i != id ==> runs'[i] == runs[i])
      && runs'[id].devices == runs[id].devices && (forall d :: d in runs[id].devices ==> Terminal(runs[id].devices[d]))
      && CalledFor(runs'[id].status, runs[id].devices, steps[n].canceled, steps[n].readable)
  {
    var id := ws[n].sched.id;
    ReachableInv(ws, steps, n);
    assert ws[n + 1] == Apply(ws[n], steps[n]);
    assert id in Orphans(ws[n].runs);
    VerdictIs(ws[n].runs[id].devices, steps[n].canceled, steps[n].readable);
    hide Verdict, CalledFor;
  }

  /** The scheduler picks the oldest queued run. */
  lemma PicksOldest(ws: seq<World>, steps: seq<Step>, n: nat)
    requires Execution(ws, steps) && n < |steps| && steps[n].Pick?
    ensures ws[n + 1].sched.Picked? && ws[n + 1].runs == ws[n].runs
    ensures var id := ws[n + 1].sched.id;
      && id < |ws[n].runs| && ws[n].runs[id].status.Queued?
      && forall i :: 0 <= i < id ==> !ws[n].runs[i].status.Queued?
  {
    assert ws[n + 1] == Apply(ws[n], steps[n]);
    var q := Queue(ws[n].runs);
    assert q[0] in q;
    forall i | 0 <= i < |ws[n].runs| && ws[n].runs[i].status.Queued?
      ensures q[0] <= i
    {
      assert i in q;
    }
  }

  /** A submitted run is recorded last, queued, with all its devices pending. */
  lemma SubmitRecords(ws: seq<World>, steps: seq<Step>, n: nat)
    requires Execution(ws, steps) && n < |steps| && steps[n].Submit?
    ensures var k, runs' := |ws[n].runs|, ws[n + 1].runs;
      && |runs'| == k + 1 && runs'[..k] == ws[n].runs
      && runs'[k].user == steps[n].user && runs'[k].batch == steps[n].batch && runs'[k].status == Queued
      && runs'[k].devices == map d | d in steps[n].devs :: Pending
  {
    assert ws[n + 1] == Apply(ws[n], steps[n]);
  }
}
