/** The scheduler as single store writes, with a crash possible between any two of them. */
module RunMachine {
  import opened Farm
  import opened Runs

  datatype Progress = Waiting | Started | Done

  /** Where the scheduler is. After a crash only the store survives. */
  datatype Sched =
    | Down
    | Recovering(todo: set<nat>)
    | RecoveredRows(todo: set<nat>, id: nat)
    | RecoveredRun(todo: set<nat>, id: nat)
    | Idle
    | Picked(id: nat)
    | Executing(id: nat, progress: map<Dev, Progress>)
    | Finishing(id: nat)

  /** released: the runs whose own batch the scheduler has released. lost: the runs whose batch was
      still to be released when the process died. */
  datatype World = World(runs: seq<Run>, sched: Sched, released: seq<nat>, lost: set<nat>)

  const INIT := World([], Down, [], {})

  datatype Step =
    | Submit(user: User, batch: Batch, devs: set<Dev>)
    | Boot
    | RecoverRows(id: nat)
    | RecoverRun
    | RecoverBatch
    | RecoverDone
    | Pick
    | MarkRunning
    | StartDevice(d: Dev)
    | EndDevice(d: Dev, verdict: RunStatus)
    | Finish(canceled: bool, readable: bool)
    | ReleaseBatch
    | Crash

  predicate Enabled(w: World, a: Step) {
    match a
    case Submit(_, _, _) => !w.sched.Down?
    case Boot => w.sched.Down?
    case RecoverRows(id) => w.sched.Recovering? && id in w.sched.todo
    case RecoverRun => w.sched.RecoveredRows?
    case RecoverBatch => w.sched.RecoveredRun?
    case RecoverDone => w.sched == Recovering({})
    case Pick => w.sched.Idle? && Queue(w.runs) != []
    case MarkRunning => w.sched.Picked?
    case StartDevice(d) => w.sched.Executing? && d in w.sched.progress && w.sched.progress[d].Waiting?
    case EndDevice(d, v) =>
      w.sched.Executing? && d in w.sched.progress && w.sched.progress[d].Started? && Terminal(v)
    case Finish(_, _) => w.sched.Executing? && forall d :: d in w.sched.progress ==> w.sched.progress[d].Done?
    case ReleaseBatch => w.sched.Finishing?
    case Crash => !w.sched.Down?
  }

  predicate Owns(w: World, id: nat) { id < |w.runs| && w.runs[id].batch != BORROWED }

  /** The run whose status is written but whose batch is not released yet. */
  predicate Owing(s: Sched, id: nat) { (s.Finishing? || s.RecoveredRun?) && s.id == id }

  function Give(w: World, id: nat): seq<nat> { if Owns(w, id) then w.released + [id] else w.released }

  function Apply(w: World, a: Step): World
    requires Enabled(w, a)
  {
    match a
    case Submit(user, batch, devs) => w.(runs := w.runs + [NewRun(user, batch, devs)])
    case Boot => w.(sched := Recovering(Orphans(w.runs)))
    case RecoverRows(id) => w.(runs := FailNotDone(w.runs, id), sched := RecoveredRows(w.sched.todo, id))
    case RecoverRun =>
      w.(runs := SetStatus(w.runs, w.sched.id, Errored),
         sched := RecoveredRun(w.sched.todo - {w.sched.id}, w.sched.id))
    case RecoverBatch => w.(released := Give(w, w.sched.id), sched := Recovering(w.sched.todo))
    case RecoverDone => w.(sched := Idle)
    case Pick => w.(sched := Picked(Queue(w.runs)[0]))
    case MarkRunning =>
      var id := w.sched.id;
      w.(runs := SetStatus(w.runs, id, Running),
         sched := Executing(id, if id < |w.runs| then map d | d in w.runs[id].devices :: Waiting else map[]))
    case StartDevice(d) =>
      w.(runs := SetDevice(w.runs, w.sched.id, d, Running),
         sched := Executing(w.sched.id, w.sched.progress[d := Started]))
    case EndDevice(d, v) =>
      w.(runs := SetDevice(w.runs, w.sched.id, d, v),
         sched := Executing(w.sched.id, w.sched.progress[d := Done]))
    case Finish(canceled, readable) =>
      var id := w.sched.id;
      var v := if id < |w.runs| then Verdict(w.runs[id].devices, canceled, readable) else Passed;
      w.(runs := SetStatus(w.runs, id, v), sched := Finishing(id))
    case ReleaseBatch => w.(released := Give(w, w.sched.id), sched := Idle)
    case Crash => w.(sched := Down, lost := w.lost + set i | 0 <= i < |w.runs| && Owing(w.sched, i) && Owns(w, i))
  }

  // ----- what every reachable state satisfies -----

  /** A run is queued with pending devices, running, or finished with finished devices only. */
  ghost predicate GoodRun(r: Run) {
    && (r.status.Queued? || r.status.Running? || Terminal(r.status))
    && (forall d :: d in r.devices ==> r.devices[d].Pending? || r.devices[d].Running? || Terminal(r.devices[d]))
    && (r.status.Queued? ==> forall d :: d in r.devices ==> r.devices[d].Pending?)
    && (Terminal(r.status) ==> forall d :: d in r.devices ==> Terminal(r.devices[d]))
  }

  predicate RowMatches(p: Progress, s: RunStatus) {
    match p
    case Waiting => s.Pending?
    case Started => s.Running?
    case Done => Terminal(s)
  }

  /** Which runs may be marked running, and how far the scheduler is with its current one. */
  ghost predicate GoodSched(runs: seq<Run>, s: Sched) {
    match s
    case Down => true
    case Recovering(todo) => Orphans(runs) == todo
    case RecoveredRows(todo, id) =>
      Orphans(runs) == todo && id in todo && forall d :: d in runs[id].devices ==> Terminal(runs[id].devices[d])
    case RecoveredRun(todo, id) => Orphans(runs) == todo && id < |runs| && Terminal(runs[id].status)
    case Idle => Orphans(runs) == {}
    case Picked(id) => Orphans(runs) == {} && id < |runs| && runs[id].status.Queued?
    case Executing(id, progress) =>
      && Orphans(runs) == {id} && progress.Keys == runs[id].devices.Keys
      && forall d :: d in progress ==> RowMatches(progress[d], runs[id].devices[d])
    case Finishing(id) => Orphans(runs) == {} && id < |runs| && Terminal(runs[id].status)
  }

  /** Batches are released once, only of finished runs that own one; an unreleased batch of a
      finished run is about to be released or was lost in a crash. */
  ghost predicate GoodBatches(w: World) {
    && (forall i, j :: 0 <= i < j < |w.released| ==> w.released[i] != w.released[j])
    && (forall i :: 0 <= i < |w.released| ==>
          Owns(w, w.released[i]) && Terminal(w.runs[w.released[i]].status) && !Owing(w.sched, w.released[i]))
    && (forall id :: id in w.lost ==> Owns(w, id) && Terminal(w.runs[id].status) && id !in w.released && !Owing(w.sched, id))
    && (forall id :: 0 <= id < |w.runs| && Owns(w, id) && Terminal(w.runs[id].status) ==>
          id in w.released || id in w.lost || Owing(w.sched, id))
  }

  ghost predicate Inv(w: World) {
    && (forall i :: 0 <= i < |w.runs| ==> GoodRun(w.runs[i]))
    && GoodSched(w.runs, w.sched)
    && GoodBatches(w)
  }

  /** A finished run is never written again: neither its status nor its device rows. */
  ghost predicate FinishedStay(a: seq<Run>, b: seq<Run>) {
    && |a| <= |b|
    && forall i :: 0 <= i < |a| && Terminal(a[i].status) ==> b[i] == a[i]
  }

  lemma VerdictIsTerminal(devices: map<Dev, RunStatus>, canceled: bool, readable: bool)
    ensures Terminal(Verdict(devices, canceled, readable))
  {}

  lemma StepGoodRuns(w: World, a: Step)
    requires Inv(w) && Enabled(w, a)
    ensures forall i :: 0 <= i < |Apply(w, a).runs| ==> GoodRun(Apply(w, a).runs[i])
    ensures FinishedStay(w.runs, Apply(w, a).runs)
  {
    hide GoodBatches, Verdict;
    if a.Finish? && w.sched.id < |w.runs| {
      VerdictIsTerminal(w.runs[w.sched.id].devices, a.canceled, a.readable);
    }
    if w.sched.Executing? || w.sched.RecoveredRows? {
      assert w.sched.id in Orphans(w.runs);
    }
    if a.RecoverRows? {
      assert a.id in Orphans(w.runs);
    }
  }

  lemma OrphansAfterStatus(runs: seq<Run>, id: nat, s: RunStatus)
    requires id < |runs|
    ensures Orphans(SetStatus(runs, id, s)) == if s.Running? then Orphans(runs) + {id} else Orphans(runs) - {id}
  {}

  /** Writing device rows leaves the running runs as they are. */
  lemma OrphansAfterDevices(runs: seq<Run>, id: nat, d: Dev, s: RunStatus)
    ensures Orphans(SetDevice(runs, id, d, s)) == Orphans(runs)
    ensures Orphans(FailNotDone(runs, id)) == Orphans(runs)
  {}

  lemma OrphansAfterNew(runs: seq<Run>, r: Run)
    requires r.status.Queued?
    ensures Orphans(runs + [r]) == Orphans(runs)
  {}

  lemma IsOrphan(runs: seq<Run>, id: nat)
    ensures id in Orphans(runs) <==> id < |runs| && runs[id].status.Running?
  {}

  lemma RecoverGoodSched(w: World, a: Step)
    requires Inv(w) && Enabled(w, a) && (a.RecoverRows? || a.RecoverRun?)
    ensures GoodSched(Apply(w, a).runs, Apply(w, a).sched)
  {
    hide GoodBatches, Orphans;
    if a.RecoverRows? {
      IsOrphan(w.runs, a.id);
      OrphansAfterDevices(w.runs, a.id, "", Pending);
      RowsTerminal(w.runs, a.id);
    } else {
      IsOrphan(w.runs, w.sched.id);
      OrphansAfterStatus(w.runs, w.sched.id, Errored);
    }
  }

  lemma DeviceGoodSched(w: World, a: Step)
    requires GoodSched(w.runs, w.sched) && Enabled(w, a) && (a.StartDevice? || a.EndDevice?)
    ensures GoodSched(Apply(w, a).runs, Apply(w, a).sched)
  {
    hide Orphans;
    IsOrphan(w.runs, w.sched.id);
    OrphansAfterDevices(w.runs, w.sched.id, a.d, if a.StartDevice? then Running else a.verdict);
  }

  lemma RunGoodSched(w: World, a: Step)
    requires GoodSched(w.runs, w.sched) && Enabled(w, a) && (a.Pick? || a.MarkRunning? || a.Finish?)
    requires forall i :: 0 <= i < |w.runs| ==> GoodRun(w.runs[i])
    ensures GoodSched(Apply(w, a).runs, Apply(w, a).sched)
  {
    hide Orphans, Verdict;
    match a
    case Pick =>
      assert Queue(w.runs)[0] in Queue(w.runs);
    case MarkRunning =>
      OrphansAfterStatus(w.runs, w.sched.id, Running);
    case Finish(canceled, readable) =>
      var id := w.sched.id;
      IsOrphan(w.runs, id);
      VerdictIsTerminal(w.runs[id].devices, canceled, readable);
      OrphansAfterStatus(w.runs, id, Verdict(w.runs[id].devices, canceled, readable));
  }

  lemma SubmitGoodSched(w: World, a: Step)
    requires GoodSched(w.runs, w.sched) && Enabled(w, a) && a.Submit?
    ensures GoodSched(Apply(w, a).runs, Apply(w, a).sched)
  {
    OrphansAfterNew(w.runs, NewRun(a.user, a.batch, a.devs));
    forall i: nat ensures i in Orphans(w.runs) <==> i < |w.runs| && w.runs[i].status.Running? {
      IsOrphan(w.runs, i);
    }
    hide Orphans, NewRun;
  }

  lemma StepGoodSched(w: World, a: Step)
    requires Inv(w) && Enabled(w, a)
    ensures GoodSched(Apply(w, a).runs, Apply(w, a).sched)
  {
    hide GoodBatches, Verdict, Orphans, GoodRun;
    match a
    case Submit(_, _, _) => SubmitGoodSched(w, a);
    case RecoverRows(_) => RecoverGoodSched(w, a);
    case RecoverRun => RecoverGoodSched(w, a);
    case Pick => RunGoodSched(w, a);
    case MarkRunning => RunGoodSched(w, a);
    case Finish(_, _) => RunGoodSched(w, a);
    case StartDevice(_) => DeviceGoodSched(w, a);
    case EndDevice(_, _) => DeviceGoodSched(w, a);
    case _ =>
  }

  /** A running run's device rows are pending, running or finished, so failing the first two
      finishes them all. */
  lemma RowsTerminal(runs: seq<Run>, id: nat)
    requires id < |runs|
    requires forall d :: d in runs[id].devices ==>
      runs[id].devices[d].Pending? || runs[id].devices[d].Running? || Terminal(runs[id].devices[d])
    ensures forall d :: d in FailNotDone(runs, id)[id].devices ==> Terminal(FailNotDone(runs, id)[id].devices[d])
  {}

  /** The step that gives the current run its final status. */
  predicate Settles(w: World, a: Step, i: nat) {
    (a.RecoverRun? && w.sched.RecoveredRows? && w.sched.id == i) || (a.Finish? && w.sched.Executing? && w.sched.id == i)
  }

  lemma SettledRuns(w: World, a: Step, i: nat)
    requires Inv(w) && Enabled(w, a) && i < |Apply(w, a).runs|
    ensures Terminal(Apply(w, a).runs[i].status) <==>
      (i < |w.runs| && Terminal(w.runs[i].status)) || Settles(w, a, i)
    ensures i < |w.runs| ==> Apply(w, a).runs[i].batch == w.runs[i].batch
    ensures Settles(w, a, i) ==> i < |w.runs| && !Terminal(w.runs[i].status)
  {
    hide GoodBatches, Verdict;
    StepGoodRuns(w, a);
    if a.Finish? {
      assert w.sched.id in Orphans(w.runs);
      VerdictIsTerminal(w.runs[w.sched.id].devices, a.canceled, a.readable);
    }
    if a.RecoverRun? || a.StartDevice? || a.EndDevice? {
      assert w.sched.id in Orphans(w.runs);
    }
    if a.RecoverRows? {
      assert a.id in Orphans(w.runs);
    }
  }

  lemma OwingAfter(w: World, a: Step, i: nat)
    requires Inv(w) && Enabled(w, a) && i < |w.runs|
    ensures Owing(Apply(w, a).sched, i) <==>
      Settles(w, a, i) || (Owing(w.sched, i) && !a.ReleaseBatch? && !a.RecoverBatch? && !a.Crash?)
  {}

  /** What one step does to the accounts: who is finished, owing, released and lost. */
  ghost predicate Moves(w: World, a: Step, w': World) {
    && |w.runs| <= |w'.runs|
    && (forall i :: 0 <= i < |w'.runs| ==>
          (Terminal(w'.runs[i].status) <==> (i < |w.runs| && Terminal(w.runs[i].status)) || Settles(w, a, i)))
    && (forall i :: 0 <= i < |w.runs| ==>
          && (Owns(w', i) <==> Owns(w, i))
          && (Owing(w'.sched, i) <==>
                Settles(w, a, i) || (Owing(w.sched, i) && !a.ReleaseBatch? && !a.RecoverBatch? && !a.Crash?)))
    && (forall i :: 0 <= i < |w'.runs| && Settles(w, a, i) ==> i < |w.runs| && !Terminal(w.runs[i].status))
    && w'.released == (if a.ReleaseBatch? || a.RecoverBatch? then Give(w, GiverId(w)) else w.released)
    && (forall i :: i in w'.lost <==>
          i in w.lost || (a.Crash? && 0 <= i < |w.runs| && Owing(w.sched, i) && Owns(w, i)))
    && (a.ReleaseBatch? || a.RecoverBatch? ==>
          GiverId(w) < |w.runs| && Owing(w.sched, GiverId(w)) && Terminal(w.runs[GiverId(w)].status))
    && (forall i :: 0 <= i < |w.runs| && Owing(w.sched, i) ==> Terminal(w.runs[i].status))
  }

  function GiverId(w: World): nat { if w.sched.Finishing? || w.sched.RecoveredRun? then w.sched.id else 0 }

  lemma StepMoves(w: World, a: Step)
    requires Inv(w) && Enabled(w, a)
    ensures Moves(w, a, Apply(w, a))
  {
    hide Apply, Inv, Enabled, GoodSched, GoodRun, Settles, GoodBatches, Terminal;
    var w' := Apply(w, a);
    StepGoodRuns(w, a);
    forall i | 0 <= i < |w'.runs|
      ensures Terminal(w'.runs[i].status) <==> (i < |w.runs| && Terminal(w.runs[i].status)) || Settles(w, a, i)
      ensures Settles(w, a, i) ==> i < |w.runs| && !Terminal(w.runs[i].status)
      ensures i < |w.runs| ==> w'.runs[i].batch == w.runs[i].batch
      ensures i < |w.runs| ==> (Owing(w'.sched, i) <==>
        Settles(w, a, i) || (Owing(w.sched, i) && !a.ReleaseBatch? && !a.RecoverBatch? && !a.Crash?))
    {
      SettledRuns(w, a, i);
      if i < |w.runs| { OwingAfter(w, a, i); }
    }
    BatchAccounts(w, a);
  }

  lemma MovesReleased(w: World, a: Step, w': World)
    requires GoodBatches(w) && Moves(w, a, w')
    ensures forall i, j :: 0 <= i < j < |w'.released| ==> w'.released[i] != w'.released[j]
    ensures forall i :: 0 <= i < |w'.released| ==>
      Owns(w', w'.released[i]) && Terminal(w'.runs[w'.released[i]].status) && !Owing(w'.sched, w'.released[i])
  {
    hide Settles, Owing, GiverId;
    forall i | 0 <= i < |w.released|
      ensures Owns(w, w.released[i]) && !Owing(w.sched, w.released[i]) && !Settles(w, a, w.released[i])
    {}
  }

  lemma MovesLost(w: World, a: Step, w': World, id: nat)
    requires GoodBatches(w) && Moves(w, a, w') && id in w'.lost
    ensures Owns(w', id) && Terminal(w'.runs[id].status) && id !in w'.released && !Owing(w'.sched, id)
  {
    hide Settles, GiverId, Owing;
    assert id in w.released ==> !Owing(w.sched, id);
  }

  lemma MovesFinished(w: World, a: Step, w': World, id: nat)
    requires GoodBatches(w) && Moves(w, a, w') && Owns(w', id) && Terminal(w'.runs[id].status)
    ensures id in w'.released || id in w'.lost || Owing(w'.sched, id)
  {
    hide Settles;
    assert id < |w.runs| && (Terminal(w.runs[id].status) || Settles(w, a, id));
  }

  lemma StepGoodBatches(w: World, a: Step)
    requires Inv(w) && Enabled(w, a)
    ensures GoodBatches(Apply(w, a))
  {
    var w' := Apply(w, a);
    StepMoves(w, a);
    MovesReleased(w, a, w');
    forall id: nat | id in w'.lost
      ensures Owns(w', id) && Terminal(w'.runs[id].status) && id !in w'.released && !Owing(w'.sched, id)
    {
      MovesLost(w, a, w', id);
    }
    forall id: nat | Owns(w', id) && Terminal(w'.runs[id].status)
      ensures id in w'.released || id in w'.lost || Owing(w'.sched, id)
    {
      MovesFinished(w, a, w', id);
    }
    hide Apply, Moves, Inv;
  }

  lemma BatchAccounts(w: World, a: Step)
    requires Inv(w) && Enabled(w, a)
    ensures var w' := Apply(w, a);
      && w'.released == (if a.ReleaseBatch? || a.RecoverBatch? then Give(w, w.sched.id) else w.released)
      && w'.lost == (if a.Crash? then w.lost + set i | 0 <= i < |w.runs| && Owing(w.sched, i) && Owns(w, i) else w.lost)
    ensures (a.ReleaseBatch? || a.RecoverBatch?) ==>
      Owing(w.sched, w.sched.id) && w.sched.id < |w.runs| && Terminal(w.runs[w.sched.id].status)
    ensures forall i :: 0 <= i < |w.runs| && Owing(w.sched, i) ==> Terminal(w.runs[i].status)
  {}

  // ----- whole executions -----

  ghost predicate Execution(ws: seq<World>, steps: seq<Step>) {
    && |ws| == |steps| + 1 && ws[0] == INIT
    && forall i :: 0 <= i < |steps| ==> Enabled(ws[i], steps[i]) && ws[i + 1] == Apply(ws[i], steps[i])
  }

  lemma {:induction false} ReachableInv(ws: seq<World>, steps: seq<Step>, n: nat)
    requires Execution(ws, steps) && n < |ws|
    ensures Inv(ws[n])
  {
    if n > 0 {
      var k := n - 1;
      ReachableInv(ws, steps, k);
      assert ws[k + 1] == Apply(ws[k], steps[k]);
      StepGoodRuns(ws[k], steps[k]);
      StepGoodSched(ws[k], steps[k]);
      StepGoodBatches(ws[k], steps[k]);
    }
  }

  /** With crashes anywhere: a finished run has finished device rows only, and neither they nor its
      status ever change again. */
  lemma {:induction false} FinishedForGood(ws: seq<World>, steps: seq<Step>, m: nat, n: nat, id: nat)
    requires Execution(ws, steps) && m <= n < |ws|
    requires id < |ws[m].runs| && Terminal(ws[m].runs[id].status)
    ensures id < |ws[n].runs| && ws[n].runs[id] == ws[m].runs[id]
    ensures forall d :: d in ws[n].runs[id].devices ==> Terminal(ws[n].runs[id].devices[d])
    decreases n - m
  {
    ReachableInv(ws, steps, m);
    if m < n {
      var k := n - 1;
      FinishedForGood(ws, steps, m, k, id);
      ReachableInv(ws, steps, k);
      assert ws[k + 1] == Apply(ws[k], steps[k]);
      StepGoodRuns(ws[k], steps[k]);
    }
  }

  /** Once recovery is over, no run is left running but the one being executed. */
  lemma NoOrphansAfterRecovery(ws: seq<World>, steps: seq<Step>, n: nat, id: nat)
    requires Execution(ws, steps) && n < |ws|
    requires id < |ws[n].runs| && ws[n].runs[id].status.Running?
    ensures ws[n].sched.Down? || ws[n].sched.Recovering? || ws[n].sched.RecoveredRows? || ws[n].sched.RecoveredRun?
         || (ws[n].sched.Executing? && ws[n].sched.id == id)
  {
    ReachableInv(ws, steps, n);
    assert id in Orphans(ws[n].runs);
  }

  /** The scheduler releases a run's own batch at most once, only after the run has finished, never
      a borrowed hold; and of a finished run it has done so, is about to, or died right before. */
  lemma BatchesReleasedOnce(ws: seq<World>, steps: seq<Step>, n: nat, id: nat)
    requires Execution(ws, steps) && n < |ws| && id < |ws[n].runs|
    ensures forall i, j :: 0 <= i < j < |ws[n].released| ==> ws[n].released[i] != ws[n].released[j]
    ensures id in ws[n].released ==> ws[n].runs[id].batch != BORROWED && Terminal(ws[n].runs[id].status)
    ensures ws[n].runs[id].batch != BORROWED && Terminal(ws[n].runs[id].status) ==>
      id in ws[n].released || id in ws[n].lost || Owing(ws[n].sched, id)
    ensures id in ws[n].lost ==> id !in ws[n].released
  {
    ReachableInv(ws, steps, n);
  }

  /** A process that dies between the final status and the release never releases that batch:
      recovery looks at running runs only, and the idle timeout has to free the devices. */
  lemma {:induction false} CrashLosesBatch(ws: seq<World>, steps: seq<Step>, m: nat, n: nat, id: nat)
    requires Execution(ws, steps) && m < n < |ws|
    requires Owing(ws[m].sched, id) && Owns(ws[m], id) && steps[m].Crash?
    ensures id in ws[n].lost && id !in ws[n].released
    decreases n
  {
    var k := n - 1;
    assert ws[k + 1] == Apply(ws[k], steps[k]);
    if m < k {
      CrashLosesBatch(ws, steps, m, k, id);
    }
    ReachableInv(ws, steps, n);
  }

  /** At step m the process died between the final status and the release of the run's own batch. */
  predicate DiesOwing(ws: seq<World>, steps: seq<Step>, m: nat, id: nat) {
    m < |steps| && m < |ws| && steps[m].Crash? && Owing(ws[m].sched, id) && Owns(ws[m], id)
  }

  ghost predicate DiedOwing(ws: seq<World>, steps: seq<Step>, n: nat, id: nat) {
    exists m: nat :: m < n && DiesOwing(ws, steps, m, id)
  }

  lemma {:induction false} LostIffDiedOwing(ws: seq<World>, steps: seq<Step>, n: nat, id: nat)
    requires Execution(ws, steps) && n < |ws|
    ensures id in ws[n].lost <==> DiedOwing(ws, steps, n, id)
  {
    hide Inv, Enabled, Apply, DiesOwing;
    if n > 0 {
      var k: nat := n - 1;
      LostIffDiedOwing(ws, steps, k, id);
      LostAfter(ws, steps, k, id);
      assert DiedOwing(ws, steps, n, id) <==> DiedOwing(ws, steps, k, id) || DiesOwing(ws, steps, k, id);
    }
  }

  lemma LostAfter(ws: seq<World>, steps: seq<Step>, k: nat, id: nat)
    requires Execution(ws, steps) && k < |steps|
    ensures id in ws[k + 1].lost <==> id in ws[k].lost || DiesOwing(ws, steps, k, id)
  {
    ReachableInv(ws, steps, k);
    BatchAccounts(ws[k], steps[k]);
    assert ws[k + 1] == Apply(ws[k], steps[k]);
    hide Inv, Enabled, Apply;
  }

  /** A finished run's own batch, once the scheduler is past it, has been released exactly when the
      process did not die in between. */
  lemma ReleasedIffNeverDiedOwing(ws: seq<World>, steps: seq<Step>, n: nat, id: nat)
    requires Execution(ws, steps) && n < |ws|
    requires Owns(ws[n], id) && Terminal(ws[n].runs[id].status) && !Owing(ws[n].sched, id)
    ensures id in ws[n].released <==> !DiedOwing(ws, steps, n, id)
  {
    hide Inv, Enabled, Apply, DiedOwing;
    BatchesReleasedOnce(ws, steps, n, id);
    LostIffDiedOwing(ws, steps, n, id);
  }
}
