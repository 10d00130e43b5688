/** Test runs: the store the scheduler steps on, the final tally, and draining the queue. */
module Runs {
  import opened Farm

  datatype RunStatus = Queued | Running | Passed | Failed | Errored | Canceled | Pending | Skipped

  /** A finished verdict, of a device or of a whole run. */
  predicate Terminal(s: RunStatus) { s.Passed? || s.Failed? || s.Errored? || s.Canceled? || s.Skipped? }

  /** batch "" means that the run borrows its caller's own hold. A run's id is its position in the
      table, so ids are in order of creation. */
  datatype Run = Run(user: User, batch: Batch, status: RunStatus, devices: map<Dev, RunStatus>)

  const BORROWED: Batch := ""

  function NewRun(user: User, batch: Batch, devs: set<Dev>): Run {
    Run(user, batch, Queued, map d | d in devs :: Pending)
  }

  function SetStatus(runs: seq<Run>, id: nat, s: RunStatus): seq<Run> {
    if id < |runs| then runs[id := runs[id].(status := s)] else runs
  }

  function SetDevice(runs: seq<Run>, id: nat, d: Dev, s: RunStatus): seq<Run> {
    if id < |runs| && d in runs[id].devices then
      runs[id := runs[id].(devices := runs[id].devices[d := s])]
    else runs
  }

  /** Every device row still pending or running becomes an error. */
  function FailNotDone(runs: seq<Run>, id: nat): seq<Run> {
    if id < |runs| then
      runs[id := runs[id].(devices := map d | d in runs[id].devices ::
        if runs[id].devices[d].Pending? || runs[id].devices[d].Running? then Errored else runs[id].devices[d])]
    else runs
  }

  /** The runs marked running. */
  function Orphans(runs: seq<Run>): set<nat> { set i | 0 <= i < |runs| && runs[i].status.Running? }

  lemma IsNewRun(r: Run, devs: set<Dev>)
    requires r.status == Queued && r.devices.Keys == devs && forall d :: d in devs ==> r.devices[d] == Pending
    ensures r == NewRun(r.user, r.batch, devs)
  {
    assert r.devices == NewRun(r.user, r.batch, devs).devices;
  }

  /** The ids of the queued runs, oldest first. */
  function Queue(runs: seq<Run>): (q: seq<nat>)
    ensures forall i :: i in q <==> 0 <= i < |runs| && runs[i].status.Queued?
    ensures forall i, j :: 0 <= i < j < |q| ==> q[i] < q[j]
    decreases |runs|
  {
    if runs == [] then []
    else
      var n := |runs| - 1;
      var front := Queue(runs[..n]);
      assert forall k :: 0 <= k < |front| ==> front[k] in front;
      front + if runs[n].status.Queued? then [n] else []
  }

  // ----- the tally at the end of a run -----

  predicate AnyWith(devices: map<Dev, RunStatus>, s: RunStatus) {
    exists d :: d in devices && devices[d] == s
  }

  /** The status of a finished run. When the rows cannot be read back it counts as passed. */
  function Verdict(devices: map<Dev, RunStatus>, canceled: bool, readable: bool): RunStatus {
    if !readable then Passed
    else if canceled then Canceled
    else if AnyWith(devices, Errored) then Errored
    else if AnyWith(devices, Failed) then Failed
    else if !AnyWith(devices, Passed) && AnyWith(devices, Skipped) then Errored
    else Passed
  }

  /** n counts the devices among keys in one status, as far as it matters whether there is one. */
  ghost predicate Counts(n: nat, devices: map<Dev, RunStatus>, keys: set<Dev>, s: RunStatus) {
    n > 0 <==> exists d :: d in keys && d in devices && devices[d] == s
  }

  lemma CountsMore(n: nat, devices: map<Dev, RunStatus>, keys: set<Dev>, s: RunStatus, d: Dev)
    requires Counts(n, devices, keys, s) && d in devices
    ensures Counts(if devices[d] == s then n + 1 else n, devices, keys + {d}, s)
  {}

  lemma CountsAll(n: nat, devices: map<Dev, RunStatus>, s: RunStatus)
    requires Counts(n, devices, devices.Keys, s)
    ensures n > 0 <==> AnyWith(devices, s)
  {}

  lemma CountsNone(devices: map<Dev, RunStatus>, s: RunStatus)
    ensures Counts(0, devices, {}, s)
  {}

  method CountRows(devices: map<Dev, RunStatus>) returns (pass: nat, fail: nat, errd: nat, skip: nat)
    ensures pass > 0 <==> AnyWith(devices, Passed)
    ensures fail > 0 <==> AnyWith(devices, Failed)
    ensures errd > 0 <==> AnyWith(devices, Errored)
    ensures skip > 0 <==> AnyWith(devices, Skipped)
  {
    hide Counts, AnyWith;
    pass, fail, errd, skip := 0, 0, 0, 0;
    var todo := devices.Keys;
    ghost var done: set<Dev> := {};
    forall r ensures Counts(0, devices, done, r) { CountsNone(devices, r); }
    while todo != {}
      invariant todo <= devices.Keys && done == devices.Keys - todo
      invariant Counts(pass, devices, done, Passed) && Counts(fail, devices, done, Failed)
      invariant Counts(errd, devices, done, Errored) && Counts(skip, devices, done, Skipped)
      decreases |todo|
    {
      var d :| d in todo;
      forall n: nat, r | Counts(n, devices, done, r)
        ensures Counts(if devices[d] == r then n + 1 else n, devices, done + {d}, r)
      {
        CountsMore(n, devices, done, r, d);
      }
      todo, done := todo - {d}, done + {d};
      match devices[d]
      case Passed => pass := pass + 1;
      case Failed => fail := fail + 1;
      case Errored => errd := errd + 1;
      case Skipped => skip := skip + 1;
      case _ =>
    }
    assert done == devices.Keys;
    CountsAll(pass, devices, Passed);
    CountsAll(fail, devices, Failed);
    CountsAll(errd, devices, Errored);
    CountsAll(skip, devices, Skipped);
  }

  method Tally(devices: map<Dev, RunStatus>, canceled: bool, readable: bool) returns (s: RunStatus)
    ensures s == Verdict(devices, canceled, readable) && CalledFor(s, devices, canceled, readable)
  {
    VerdictIs(devices, canceled, readable);
    hide CalledFor;
    s := Passed;
    if readable {
      var pass, fail, errd, skip := CountRows(devices);
      if canceled {
        s := Canceled;
      } else if errd > 0 {
        s := Errored;
      } else if fail > 0 {
        s := Failed;
      } else if pass == 0 && skip > 0 {
        s := Errored;
      }
    }
  }

  /** The status a run is to end with, each as an equivalence over its rows: a failed re-read passes,
      then a cancellation wins, then an error, then a failure, and nothing but skips is an error too. */
  predicate CalledFor(s: RunStatus, rows: map<Dev, RunStatus>, canceled: bool, readable: bool) {
    var counted := readable && !canceled;
    && (s == Canceled <==> readable && canceled)
    && (s == Errored <==>
          (counted && (AnyWith(rows, Errored) ||
                       (AnyWith(rows, Skipped) && !AnyWith(rows, Passed) && !AnyWith(rows, Failed)))))
    && (s == Failed <==> (counted && AnyWith(rows, Failed) && !AnyWith(rows, Errored)))
    && (s == Passed <==>
          (!readable || (counted && !AnyWith(rows, Errored) && !AnyWith(rows, Failed) &&
                         (AnyWith(rows, Passed) || !AnyWith(rows, Skipped)))))
  }

  lemma VerdictIs(devices: map<Dev, RunStatus>, canceled: bool, readable: bool)
    ensures CalledFor(Verdict(devices, canceled, readable), devices, canceled, readable)
  {
    hide AnyWith;
  }

  predicate PassedOrSkipped(devices: map<Dev, RunStatus>) {
    forall d :: d in devices ==> devices[d].Passed? || devices[d].Skipped?
  }

  /** The tally looks at four statuses only; of a finished row it overlooks Canceled. */
  predicate Overlooked(s: RunStatus) { !s.Passed? && !s.Failed? && !s.Errored? && !s.Skipped? }

  /** Exactly the runs that pass although some device neither passed nor was skipped: those whose rows
      could not be read back, and those not canceled as a whole in which some row is overlooked, none
      failed or errored, and some device passed unless none was skipped. */
  lemma PassedInVain(devices: map<Dev, RunStatus>, canceled: bool, readable: bool)
    ensures Verdict(devices, canceled, readable) == Passed && !PassedOrSkipped(devices) <==>
      || (!readable && !PassedOrSkipped(devices))
      || (readable && !canceled && (exists d :: d in devices && Overlooked(devices[d]))
          && !AnyWith(devices, Errored) && !AnyWith(devices, Failed)
          && (AnyWith(devices, Passed) || !AnyWith(devices, Skipped)))
  {
    assert forall d :: d in devices && devices[d].Errored? ==> AnyWith(devices, Errored);
    assert forall d :: d in devices && devices[d].Failed? ==> AnyWith(devices, Failed);
  }

  /** So with rows read back and finished, a passed run has a device that neither passed nor was
      skipped exactly when it has a canceled one. */
  lemma PassedMeans(devices: map<Dev, RunStatus>, canceled: bool)
    requires forall d :: d in devices ==> Terminal(devices[d])
    requires Verdict(devices, canceled, true) == Passed
    ensures PassedOrSkipped(devices) <==> !AnyWith(devices, Canceled)
    ensures AnyWith(devices, Passed) || !AnyWith(devices, Skipped)
  {
    PassedInVain(devices, canceled, true);
  }

  /** A run whose rows cannot be read back passes, whatever they are. */
  lemma UnreadableRunPasses(d: Dev)
    ensures Verdict(map[d := Failed], false, false) == Passed && !PassedOrSkipped(map[d := Failed])
  {
    assert d in map[d := Failed];
  }

  /** A device that is canceled by its own timeout alone leaves its run passed. */
  lemma TimedOutRunPasses(d: Dev)
    ensures Verdict(map[d := Canceled], false, true) == Passed
  {}

  // ----- the scheduler -----

  /** What the outside world decides: verdicts per device, cancellations, unreadable rows. */
  datatype Outcome = Outcome(verdicts: map<Dev, RunStatus>, canceled: bool, readable: bool)

  /** The verdict of a device; a goroutine that ends without one records an error. */
  function Reported(o: Outcome, d: Dev): (s: RunStatus)
    ensures Terminal(s)
  {
    if d in o.verdicts && Terminal(o.verdicts[d]) then o.verdicts[d] else Errored
  }

  function Finished(r: Run, o: Outcome): Run {
    var devices := map d | d in r.devices :: Reported(o, d);
    r.(devices := devices, status := Verdict(devices, o.canceled, o.readable))
  }

  lemma FinishedIs(r: Run, o: Outcome)
    ensures var f := Finished(r, o);
      && f == r.(devices := f.devices, status := f.status) && f.devices.Keys == r.devices.Keys
      && (forall d :: d in f.devices ==>
            f.devices[d] ==
              if d in o.verdicts && o.verdicts[d] in {Passed, Failed, Errored, Canceled, Skipped} then o.verdicts[d]
              else Errored)
      && CalledFor(f.status, f.devices, o.canceled, o.readable)
  {
    VerdictIs(Finished(r, o).devices, o.canceled, o.readable);
    hide Verdict, CalledFor;
  }

  class RunStore {
    var runs: seq<Run>

    constructor ()
      ensures runs == []
    {
      runs := [];
    }

    /** The new run is the last in the queue, and no earlier run or orphan is touched. */
    method CreateRun(user: User, batch: Batch, devs: set<Dev>) returns (id: nat)
      modifies this
      ensures id == |old(runs)| && |runs| == id + 1 && runs[..id] == old(runs)
      ensures runs[id].user == user && runs[id].batch == batch && runs[id].status == Queued
      ensures runs[id].devices.Keys == devs
      ensures forall d :: d in devs ==> runs[id].devices[d] == Pending
      ensures Queue(runs) == Queue(old(runs)) + [id]
      ensures Orphans(runs) == Orphans(old(runs))
    {
      id := |runs|;
      runs := runs + [NewRun(user, batch, devs)];
      QueueSnoc(runs);
      assert runs[..id] == old(runs);
    }

    method QueuedRunIDs() returns (q: seq<nat>)
      ensures q == Queue(runs)
    {
      q := [];
      for k := 0 to |runs|
        invariant q == Queue(runs[..k])
      {
        assert runs[..k + 1][..k] == runs[..k];
        if runs[k].status.Queued? {
          q := q + [k];
        }
      }
      assert runs[..|runs|] == runs;
    }

    method OrphanRuns() returns (ids: set<nat>)
      ensures ids == Orphans(runs)
    {
      ids := {};
      for k := 0 to |runs|
        invariant ids == set i | 0 <= i < k && runs[i].status.Running?
      {
        if runs[k].status.Running? {
          ids := ids + {k};
        }
      }
    }

    /** One device's goroutine: running, then its verdict. */
    method RunDevice(id: nat, d: Dev, o: Outcome)
      requires id < |runs| && d in runs[id].devices
      modifies this
      ensures runs == SetDevice(old(runs), id, d, Reported(o, d))
    {
      runs := SetDevice(runs, id, d, Running);
      runs := SetDevice(runs, id, d, Reported(o, d));
      assert runs[id].devices == old(runs)[id].devices[d := Reported(o, d)];
    }

    method Execute(id: nat, o: Outcome)
      requires id < |runs|
      modifies this
      ensures runs == if old(runs)[id].status.Queued? then old(runs)[id := Finished(old(runs)[id], o)] else old(runs)
      ensures old(runs)[id].status.Queued? ==>
        && runs[id].devices.Keys == old(runs)[id].devices.Keys
        && forall d :: d in runs[id].devices ==>
             runs[id].devices[d] ==
               if d in o.verdicts && o.verdicts[d] in {Passed, Failed, Errored, Canceled, Skipped} then o.verdicts[d]
               else Errored
      ensures old(runs)[id].status.Queued? ==> CalledFor(runs[id].status, runs[id].devices, o.canceled, o.readable)
    {
      hide CalledFor, AnyWith, Verdict;
      if !runs[id].status.Queued? {
        return;
      }
      runs := SetStatus(runs, id, Running);
      var todo := runs[id].devices.Keys;
      while todo != {}
        invariant |runs| == |old(runs)| && todo <= runs[id].devices.Keys
        invariant forall i :: 0 <= i < |runs| && i != id ==> runs[i] == old(runs)[i]
        invariant runs[id] == old(runs)[id].(status := Running, devices := runs[id].devices)
        invariant runs[id].devices == map d | d in old(runs)[id].devices ::
          if d in todo then old(runs)[id].devices[d] else Reported(o, d)
        decreases |todo|
      {
        var d :| d in todo;
        RunDevice(id, d, o);
        todo := todo - {d};
      }
      assert runs[id].devices == Finished(old(runs)[id], o).devices;
      var s := Tally(runs[id].devices, o.canceled, o.readable);
      runs := SetStatus(runs, id, s);
      assert runs == old(runs)[id := Finished(old(runs)[id], o)];
      FinishedIs(old(runs)[id], o);
      hide Finished, Reported, Verdict;
    }

    /** Runs the queue, oldest first, until it is empty or the scheduler is told to stop. */
    method DrainQueue(world: nat -> Outcome, stop: nat -> bool) returns (done: seq<nat>)
      modifies this
      ensures done <= Queue(old(runs)) && Queue(runs) == Queue(old(runs))[|done|..]
      ensures (forall k :: 0 <= k < |Queue(old(runs))| ==> !stop(k)) ==> done == Queue(old(runs))
      ensures ExactlyRan(old(runs), runs, done, world)
    {
      hide Queue, Finished, ExactlyRan;
      done := [];
      ghost var all := Queue(runs);
      NoneRan(runs, world);
      while true
        invariant done <= all && Queue(runs) == all[|done|..]
        invariant ExactlyRan(old(runs), runs, done, world)
        invariant forall k :: 0 <= k < |done| ==> !stop(k)
        decreases |all| - |done|
      {
        var q := QueuedRunIDs();
        if |q| == 0 || stop(|done|) {
          return;
        }
        var id := q[0];
        assert id in q;
        ghost var was := runs;
        Execute(id, world(id));
        FinishedLeavesQueue(was, id, world(id));
        NextOfQueue(all, done);
        OneMoreRan(old(runs), was, done, world, id);
        done := done + [id];
      }
    }
  }

  /** The listed runs, and no others, have been executed. */
  predicate ExactlyRan(before: seq<Run>, now: seq<Run>, done: seq<nat>, world: nat -> Outcome) {
    && |now| == |before|
    && forall i :: 0 <= i < |now| ==> now[i] == if i in done then Finished(before[i], world(i)) else before[i]
  }

  lemma NoneRan(runs: seq<Run>, world: nat -> Outcome)
    ensures ExactlyRan(runs, runs, [], world)
  {}

  lemma OneMoreRan(before: seq<Run>, now: seq<Run>, done: seq<nat>, world: nat -> Outcome, id: nat)
    requires ExactlyRan(before, now, done, world) && id < |now| && id !in done
    ensures ExactlyRan(before, now[id := Finished(now[id], world(id))], done + [id], world)
  {
    hide Finished;
    assert forall i :: i in done + [id] <==> i in done || i == id;
  }

  lemma NextOfQueue(all: seq<nat>, done: seq<nat>)
    requires done < all && forall i, j :: 0 <= i < j < |all| ==> all[i] < all[j]
    ensures all[|done|] !in done
    ensures all[|done|..][0] == all[|done|] && all[|done|..][1..] == all[|done| + 1..]
    ensures done + [all[|done|]] <= all
  {
    assert all[..|done| + 1] == all[..|done|] + [all[|done|]];
  }

  lemma FinishedNotQueued(r: Run, o: Outcome)
    ensures Terminal(Finished(r, o).status) && !Finished(r, o).status.Queued?
  {}

  /** Running the oldest queued run takes exactly it off the queue. */
  lemma FinishedLeavesQueue(runs: seq<Run>, id: nat, o: Outcome)
    requires Queue(runs) != [] && id == Queue(runs)[0]
    ensures id < |runs| && Queue(runs[id := Finished(runs[id], o)]) == Queue(runs)[1..]
  {
    assert id in Queue(runs);
    FinishedNotQueued(runs[id], o);
    QueueWithout(runs, id, Finished(runs[id], o));
  }

  lemma {:induction false} QueueWithout(runs: seq<Run>, id: nat, r: Run)
    requires Queue(runs) != [] && id == Queue(runs)[0] && id < |runs| && !r.status.Queued?
    ensures Queue(runs[id := r]) == Queue(runs)[1..]
    decreases |runs|
  {
    hide Queue, LastQueued;
    var n := |runs| - 1;
    var front, last := runs[..n], LastQueued(runs);
    QueueSnoc(runs);
    QueueSnoc(runs[id := r]);
    QueueBelow(front);
    FrontOfUpdate(runs, id, r);
    LastOfUpdate(runs, id, r);
    DropHead(Queue(front), last, n, id);
    if id < n {
      QueueWithout(front, id, r);
    }
  }

  /** What the last run adds to the queue. */
  function LastQueued(runs: seq<Run>): (q: seq<nat>)
    requires runs != []
    ensures q == [] || q == [|runs| - 1]
  {
    if runs[|runs| - 1].status.Queued? then [|runs| - 1] else []
  }

  lemma LastOfUpdate(runs: seq<Run>, id: nat, r: Run)
    requires id < |runs| && !r.status.Queued?
    ensures LastQueued(runs[id := r]) == if id == |runs| - 1 then [] else LastQueued(runs)
  {}

  lemma DropHead(front: seq<nat>, last: seq<nat>, n: nat, id: nat)
    requires (last == [n] || last == []) && (front != [] ==> front[0] < n)
    requires front + last != [] && (front + last)[0] == id
    ensures id == n ==> front == [] && last == [n] && (front + last)[1..] == [] && front + [] == []
    ensures id < n ==> front != [] && front[0] == id && (front + last)[1..] == front[1..] + last
  {}

  lemma FrontOfUpdate(runs: seq<Run>, id: nat, r: Run)
    requires id < |runs|
    ensures var n := |runs| - 1;
      runs[id := r][..n] == if id == n then runs[..n] else runs[..n][id := r]
  {}

  lemma QueueBelow(runs: seq<Run>)
    ensures Queue(runs) != [] ==> Queue(runs)[0] < |runs|
  {
    assert Queue(runs) != [] ==> Queue(runs)[0] in Queue(runs);
  }

  lemma QueueSnoc(runs: seq<Run>)
    requires runs != []
    ensures Queue(runs) == Queue(runs[..|runs| - 1]) + LastQueued(runs)
  {}
}
