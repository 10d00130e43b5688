/** The scheduler together with the reservation tables: what a run takes, and what it gives back. */
module RunFarm {
  import opened Basics
  import opened Farm
  import opened Reservations
  import Safety = ReservationSafety
  import opened BatchOwnership
  import Runs
  import M = RunMachine

  /** What a submission booked: for whom, and which rows. */
  datatype Claim = Claim(user: User, lo: nat, hi: nat)

  /** claims: every batch a submission ever booked. pending: those whose run is not recorded yet. */
  datatype World = World(tables: Tables, machine: M.World, claims: map<Batch, Claim>, pending: set<Batch>)

  /** Take, Record and GiveBack are the parts of a submission that books; Borrow is one on the
      caller's own hold. Other: anything else that happens to the tables. */
  datatype Step =
    | Take(user: User, batch: Batch, ids: seq<Dev>, now: Time)
    | Record(batch: Batch, devs: set<Dev>)
    | GiveBack(batch: Batch)
    | Borrow(user: User, devs: set<Dev>)
    | Sched(a: M.Step)
    | Other(b: Safety.Step)

  /** A batch id nobody has used. */
  ghost predicate Unused(w: World, batch: Batch) {
    && batch != MINE && batch != Runs.BORROWED && batch !in w.claims
    && forall i :: 0 <= i < |w.tables.rows| ==> w.tables.rows[i].batch != batch
  }

  ghost predicate Enabled(w: World, a: Step, c: Config) {
    match a
    case Take(user, batch, ids, now) =>
      !w.machine.sched.Down? && Unused(w, batch) && BookAll(w.tables, ids, user, batch, now, c).Some?
    case Record(batch, devs) => batch in w.pending && batch in w.claims && !w.machine.sched.Down?
    case GiveBack(batch) => batch in w.pending && batch in w.claims
    case Borrow(user, devs) => !w.machine.sched.Down?
    case Sched(b) => !b.Submit? && M.Enabled(w.machine, b)
    case Other(b) => BooksUnder(b).Some? ==> BooksUnder(b).value !in w.claims
  }

  /** The scheduler step gives a run's own batch back. */
  predicate Releases(m: M.World, a: M.Step) {
    (a.ReleaseBatch? || a.RecoverBatch?) && M.Owns(m, M.GiverId(m))
  }

  /** What a step does to the tables, if anything. */
  function TableStep(w: World, a: Step): Option<Safety.Step> {
    match a
    case Take(user, batch, ids, now) => Some(Safety.BookMany(ids, user, batch, now))
    case GiveBack(batch) =>
      if batch in w.claims then Some(Safety.ReleaseWhole(batch, w.claims[batch].user, true)) else None
    case Sched(b) =>
      if Releases(w.machine, b) then
        var r := w.machine.runs[M.GiverId(w.machine)];
        Some(Safety.ReleaseWhole(r.batch, r.user, true))
      else None
    case Other(b) => Some(b)
    case _ => None
  }

  function TablesAfter(w: World, a: Step, c: Config): Tables {
    match TableStep(w, a)
    case None => w.tables
    case Some(b) => Safety.Apply(w.tables, b, c)
  }

  /** The step of the scheduler's machine a step is, if it is one. */
  ghost function MachineStep(w: World, a: Step): (b: Option<M.Step>) {
    match a
    case Record(batch, devs) =>
      if batch in w.claims then Some(M.Submit(w.claims[batch].user, batch, devs)) else None
    case Borrow(user, devs) => Some(M.Submit(user, Runs.BORROWED, devs))
    case Sched(b) => Some(b)
    case _ => None
  }

  ghost function MachineAfter(w: World, a: Step, c: Config): M.World
    requires Enabled(w, a, c)
  {
    match MachineStep(w, a)
    case None => w.machine
    case Some(b) => M.Apply(w.machine, b)
  }

  ghost function Apply(w: World, a: Step, c: Config): World
    requires Enabled(w, a, c)
  {
    var n := |w.tables.rows|;
    World(TablesAfter(w, a, c), MachineAfter(w, a, c),
      if a.Take? then w.claims[a.batch := Claim(a.user, n, n + |a.ids|)] else w.claims,
      if a.Take? then w.pending + {a.batch}
      else if a.Record? || a.GiveBack? then w.pending - {a.batch}
      else if a.Sched? && a.a.Crash? then {}
      else w.pending)
  }

  // ----- what every reachable state satisfies -----

  /** The rows of the batch are the ones claimed, all taken by the claim's user. */
  ghost predicate GoodClaim(rows: seq<Row>, b: Batch, k: Claim) {
    b != MINE && b != Runs.BORROWED && Took(rows, b, k.user, k.lo, k.hi)
  }

  ghost predicate GoodClaims(w: World) {
    && OneActive(w.tables.rows)
    && w.pending <= w.claims.Keys
    && forall b :: b in w.claims ==> GoodClaim(w.tables.rows, b, w.claims[b])
  }

  /** The run's batch is one its user claimed, and recorded. */
  predicate OwnsClaim(w: World, i: nat)
    requires i < |w.machine.runs|
  {
    var r := w.machine.runs[i];
    r.batch in w.claims && w.claims[r.batch].user == r.user && r.batch !in w.pending
  }

  ghost predicate GoodOwners(w: World) {
    && (forall i: nat :: M.Owns(w.machine, i) ==> OwnsClaim(w, i))
    && (forall i: nat, j: nat :: M.Owns(w.machine, i) && M.Owns(w.machine, j) && i != j ==>
          w.machine.runs[i].batch != w.machine.runs[j].batch)
  }

  /** All reservations of a batch have ended. */
  ghost predicate Ended(rows: seq<Row>, b: Batch) {
    forall i :: 0 <= i < |rows| && rows[i].batch == b ==> rows[i].released
  }

  ghost predicate GoodReleases(w: World) {
    forall i: nat :: i in w.machine.released && M.Owns(w.machine, i) ==> Ended(w.tables.rows, w.machine.runs[i].batch)
  }

  ghost predicate Inv(w: World) {
    M.Inv(w.machine) && GoodClaims(w) && GoodOwners(w) && GoodReleases(w)
  }

  // ----- the tables -----

  /** Rows stay in place, ended ones stay ended, and new ones belong to the batch being booked. */
  lemma TablesGrow(w: World, a: Step, c: Config)
    requires OneActive(w.tables.rows)
    ensures var rows, rows' := w.tables.rows, TablesAfter(w, a, c).rows;
      && OneActive(rows') && Grows(rows, rows')
      && forall i :: |rows| <= i < |rows'| ==>
           TableStep(w, a).Some? && BooksUnder(TableStep(w, a).value) == Some(rows'[i].batch)
  {
    hide TableStep, BooksUnder, Safety.Apply, OneActive;
    match TableStep(w, a)
    case None =>
    case Some(b) =>
      StepGrows(w.tables, b, c);
      Safety.OneActiveAlways(w.tables, b, c);
  }

  /** No step books under a batch that is claimed already. */
  lemma NoClaimedBooking(w: World, a: Step, c: Config)
    requires Enabled(w, a, c)
    ensures TableStep(w, a).Some? && BooksUnder(TableStep(w, a).value).Some? ==>
      BooksUnder(TableStep(w, a).value).value !in w.claims
  {}

  lemma ClaimKept(rows: seq<Row>, rows': seq<Row>, b: Batch, k: Claim)
    requires GoodClaim(rows, b, k) && Grows(rows, rows')
    requires forall i :: |rows| <= i < |rows'| ==> rows'[i].batch != b
    ensures GoodClaim(rows', b, k) && (Ended(rows, b) ==> Ended(rows', b))
  {
    assert forall i :: 0 <= i < |rows| ==> rows'[i].batch == rows[i].batch && rows'[i].user == rows[i].user;
  }

  lemma AllClaimsKept(w: World, a: Step, c: Config, b: Batch)
    requires Enabled(w, a, c) && GoodClaims(w) && b in w.claims
    ensures GoodClaim(TablesAfter(w, a, c).rows, b, w.claims[b])
    ensures Ended(w.tables.rows, b) ==> Ended(TablesAfter(w, a, c).rows, b)
  {
    TablesGrow(w, a, c);
    NoClaimedBooking(w, a, c);
    hide Enabled, TableStep, TablesAfter, Grows, GoodClaim, Ended;
    ClaimKept(w.tables.rows, TablesAfter(w, a, c).rows, b, w.claims[b]);
  }

  lemma NewClaim(w: World, a: Step, c: Config)
    requires Enabled(w, a, c) && GoodClaims(w) && a.Take?
    ensures var n := |w.tables.rows|;
      GoodClaim(TablesAfter(w, a, c).rows, a.batch, Claim(a.user, n, n + |a.ids|))
  {
    BookedUnder(w.tables, a.ids, a.user, a.batch, a.now, c);
    hide BookAll, OneActive, Took, GoodClaims;
  }

  lemma StepGoodClaims(w: World, a: Step, c: Config)
    requires Enabled(w, a, c) && GoodClaims(w)
    ensures GoodClaims(Apply(w, a, c))
  {
    var w' := Apply(w, a, c);
    TablesGrow(w, a, c);
    if a.Take? { NewClaim(w, a, c); }
    assert w'.pending <= w'.claims.Keys;
    forall b | b in w'.claims
      ensures GoodClaim(w'.tables.rows, b, w'.claims[b])
    {
      if !(a.Take? && b == a.batch) {
        AllClaimsKept(w, a, c, b);
      }
    }
    hide Apply, Enabled, GoodClaim, OneActive;
  }

  // ----- the runs -----

  /** Runs keep their user and batch; only a submission adds one. */
  lemma RunsKept(m: M.World, a: M.Step)
    requires M.Enabled(m, a)
    ensures var m' := M.Apply(m, a);
      && |m'.runs| == |m.runs| + (if a.Submit? then 1 else 0)
      && (forall i :: 0 <= i < |m.runs| ==> m'.runs[i].user == m.runs[i].user && m'.runs[i].batch == m.runs[i].batch)
      && (a.Submit? ==> m'.runs[|m.runs|].user == a.user && m'.runs[|m.runs|].batch == a.batch)
  {}

  lemma StepGoodOwners(w: World, a: Step, c: Config)
    requires Enabled(w, a, c) && GoodClaims(w) && GoodOwners(w)
    ensures GoodOwners(Apply(w, a, c))
  {
    var w' := Apply(w, a, c);
    var b := MachineStep(w, a);
    if b.Some? { RunsKept(w.machine, b.value); }
    var n := |w.machine.runs|;
    assert forall i: nat :: i < n ==> (M.Owns(w'.machine, i) <==> M.Owns(w.machine, i));
    forall i: nat | M.Owns(w.machine, i)
      ensures OwnsClaim(w, i) && w'.machine.runs[i].batch == w.machine.runs[i].batch
      ensures w'.machine.runs[i].user == w.machine.runs[i].user
    {}
    hide M.Apply, TablesAfter, GoodClaim;
  }

  /** What a scheduler step does to the reservations: a release ends exactly the rows of the run's
      batch, and nothing else touches a row. */
  lemma SchedulerStepExact(w: World, a: M.Step, c: Config)
    requires Inv(w) && Enabled(w, Sched(a), c)
    ensures var rows, t' := w.tables.rows, Apply(w, Sched(a), c).tables;
      && |t'.rows| == |rows|
      && (forall i :: 0 <= i < |rows| ==>
            t'.rows[i] ==
              if Releases(w.machine, a) && rows[i].batch == w.machine.runs[M.GiverId(w.machine)].batch
              then rows[i].(released := true) else rows[i])
      && (!Releases(w.machine, a) ==> t' == w.tables)
  {
    if Releases(w.machine, a) {
      var r := w.machine.runs[M.GiverId(w.machine)];
      assert OwnsClaim(w, M.GiverId(w.machine));
      var k := w.claims[r.batch];
      assert GoodClaim(w.tables.rows, r.batch, k);
      ReleaseWholeExact(w.tables, r.batch, r.user, k.lo, k.hi);
      hide M.Inv, GoodOwners, GoodReleases, OneActive, ReleaseEach, M.Apply;
    }
  }

  /** A submission whose run cannot be recorded ends every reservation it booked, and no other. */
  lemma GivenBackIsEnded(w: World, batch: Batch, c: Config)
    requires Inv(w) && Enabled(w, GiveBack(batch), c)
    ensures var rows, rows' := w.tables.rows, Apply(w, GiveBack(batch), c).tables.rows;
      && |rows'| == |rows|
      && (forall i :: 0 <= i < |rows| ==>
            rows'[i] == if rows[i].batch == batch then rows[i].(released := true) else rows[i])
  {
    var k := w.claims[batch];
    assert GoodClaim(w.tables.rows, batch, k);
    ReleaseWholeExact(w.tables, batch, k.user, k.lo, k.hi);
    hide M.Inv, GoodOwners, GoodReleases, OneActive, ReleaseEach;
  }

  lemma ReleasedIsEnded(w: World, a: Step, c: Config, i: nat)
    requires Inv(w) && Enabled(w, a, c)
    requires i in MachineAfter(w, a, c).released && M.Owns(MachineAfter(w, a, c), i)
    ensures Ended(Apply(w, a, c).tables.rows, MachineAfter(w, a, c).runs[i].batch)
  {
    var b := MachineStep(w, a);
    if b.Some? {
      RunsKept(w.machine, b.value);
      M.BatchAccounts(w.machine, b.value);
    }
    hide M.Apply, M.Inv;
    if i in w.machine.released {
      ReleasedIsRun(w.machine, i);
      var batch := w.machine.runs[i].batch;
      assert OwnsClaim(w, i);
      AllClaimsKept(w, a, c, batch);
    } else {
      assert a.Sched? && Releases(w.machine, a.a) && M.GiverId(w.machine) == i;
      SchedulerStepExact(w, a.a, c);
    }
  }

  lemma ReleasedIsRun(m: M.World, i: nat)
    requires M.Inv(m) && i in m.released
    ensures M.Owns(m, i)
  {}

  lemma StepInv(w: World, a: Step, c: Config)
    requires Inv(w) && Enabled(w, a, c)
    ensures Inv(Apply(w, a, c))
  {
    var w' := Apply(w, a, c);
    StepGoodClaims(w, a, c);
    StepGoodOwners(w, a, c);
    var b := MachineStep(w, a);
    if b.Some? {
      M.StepGoodRuns(w.machine, b.value);
      M.StepGoodSched(w.machine, b.value);
      M.StepGoodBatches(w.machine, b.value);
    }
    forall i: nat | i in w'.machine.released && M.Owns(w'.machine, i)
      ensures Ended(w'.tables.rows, w'.machine.runs[i].batch)
    {
      ReleasedIsEnded(w, a, c, i);
    }
    hide TablesAfter, M.Apply, GoodClaims, GoodOwners;
  }

  // ----- whole executions -----

  ghost predicate Initial(w: World) {
    w.machine == M.INIT && w.claims == map[] && w.pending == {} && OneActive(w.tables.rows)
  }

  ghost predicate Execution(ws: seq<World>, steps: seq<Step>, c: Config) {
    && |ws| == |steps| + 1 && Initial(ws[0])
    && forall i :: 0 <= i < |steps| ==> Enabled(ws[i], steps[i], c) && ws[i + 1] == Apply(ws[i], steps[i], c)
  }

  lemma InitialInv(w: World)
    requires Initial(w)
    ensures Inv(w)
  {}

  lemma {:induction false} ReachableInv(ws: seq<World>, steps: seq<Step>, c: Config, n: nat)
    requires Execution(ws, steps, c) && n < |ws|
    ensures Inv(ws[n])
  {
    hide Inv, Apply, Enabled, Initial;
    if n == 0 {
      InitialInv(ws[0]);
    } else {
      var k := n - 1;
      ReachableInv(ws, steps, c, k);
      StepInv(ws[k], steps[k], c);
      assert ws[k + 1] == Apply(ws[k], steps[k], c);
    }
  }

  /** In every reachable state, crashes included: the rows of a run's own batch are exactly those its
      submission booked, all its user's, and no other run shares them. */
  lemma RunOwnsItsRows(ws: seq<World>, steps: seq<Step>, c: Config, n: nat, id: nat)
    requires Execution(ws, steps, c) && n < |ws| && M.Owns(ws[n].machine, id)
    ensures var w, r := ws[n], ws[n].machine.runs[id];
      && r.batch in w.claims && Took(w.tables.rows, r.batch, r.user, w.claims[r.batch].lo, w.claims[r.batch].hi)
      && forall j: nat :: M.Owns(w.machine, j) && j != id ==> w.machine.runs[j].batch != r.batch
  {
    ReachableInv(ws, steps, c, n);
    assert OwnsClaim(ws[n], id);
    assert GoodClaim(ws[n].tables.rows, ws[n].machine.runs[id].batch, ws[n].claims[ws[n].machine.runs[id].batch]);
  }

  /** In every run, what the scheduler gives back is exactly the rest of one run's own reservations;
      for a run on a borrowed hold it touches no table. */
  lemma SchedulerGivesBackItsOwn(ws: seq<World>, steps: seq<Step>, c: Config, n: nat)
    requires Execution(ws, steps, c) && n < |steps| && steps[n].Sched?
    ensures var w, rows, t' := ws[n], ws[n].tables.rows, ws[n + 1].tables;
      && |t'.rows| == |rows|
      && (forall i :: 0 <= i < |rows| ==>
            t'.rows[i] ==
              if Releases(w.machine, steps[n].a) && rows[i].batch == w.machine.runs[M.GiverId(w.machine)].batch
              then rows[i].(released := true) else rows[i])
      && (!Releases(w.machine, steps[n].a) ==> t' == w.tables)
  {
    ReachableInv(ws, steps, c, n);
    hide Inv;
    SchedulerStepExact(ws[n], steps[n].a, c);
  }

  /** At step m the process died between a run's final status and the release of its own batch. */
  ghost predicate DiesOwing(ws: seq<World>, steps: seq<Step>, m: nat, id: nat) {
    && m < |steps| && m < |ws| && steps[m].Sched? && steps[m].a.Crash?
    && M.Owing(ws[m].machine.sched, id) && M.Owns(ws[m].machine, id)
  }

  lemma LostAfter(w: World, a: Step, c: Config, id: nat)
    requires Inv(w) && Enabled(w, a, c)
    ensures id in Apply(w, a, c).machine.lost <==>
      id in w.machine.lost || (a.Sched? && a.a.Crash? && M.Owing(w.machine.sched, id) && M.Owns(w.machine, id))
  {
    var b := MachineStep(w, a);
    if b.Some? { M.BatchAccounts(w.machine, b.value); }
    hide M.Apply, TablesAfter;
  }

  lemma {:induction false} LostIffDied(ws: seq<World>, steps: seq<Step>, c: Config, n: nat, id: nat)
    requires Execution(ws, steps, c) && n < |ws|
    ensures id in ws[n].machine.lost <==> exists m: nat :: m < n && DiesOwing(ws, steps, m, id)
  {
    hide Inv, Enabled, Apply;
    if n == 0 {
      assert ws[0].machine.lost == {};
    } else {
      var k: nat := n - 1;
      LostIffDied(ws, steps, c, k, id);
      ReachableInv(ws, steps, c, k);
      LostAfter(ws[k], steps[k], c, id);
      assert ws[k + 1] == Apply(ws[k], steps[k], c);
      assert id in ws[n].machine.lost <==> id in ws[k].machine.lost || DiesOwing(ws, steps, k, id);
    }
  }

  /** Once the scheduler is past a finished run, all reservations of its own batch have ended, for
      good, unless the process died right between the run's final status and the release. */
  lemma FinishedRunIsEnded(ws: seq<World>, steps: seq<Step>, c: Config, n: nat, id: nat)
    requires Execution(ws, steps, c) && n < |ws| && M.Owns(ws[n].machine, id)
    requires Runs.Terminal(ws[n].machine.runs[id].status) && !M.Owing(ws[n].machine.sched, id)
    requires forall m: nat :: m < n ==> !DiesOwing(ws, steps, m, id)
    ensures Ended(ws[n].tables.rows, ws[n].machine.runs[id].batch)
  {
    ReachableInv(ws, steps, c, n);
    LostIffDied(ws, steps, c, n, id);
    hide Ended, GoodClaims, GoodOwners, DiesOwing, Execution;
    FinishedIsReleased(ws[n].machine, id);
  }

  lemma FinishedIsReleased(m: M.World, id: nat)
    requires M.Inv(m) && M.Owns(m, id) && Runs.Terminal(m.runs[id].status) && !M.Owing(m.sched, id) && id !in m.lost
    ensures id in m.released
  {}
}
