/** Who a batch release releases. */
module BatchOwnership {
  import opened Basics
  import opened Farm
  import opened Reservations
  import opened ReservationSafety

  /** Rows lo..hi are the rows of the batch, all taken by one user. */
  ghost predicate Took(rows: seq<Row>, batch: Batch, user: User, lo: nat, hi: nat) {
    && lo <= hi <= |rows|
    && forall i :: 0 <= i < |rows| ==>
         && (rows[i].batch == batch <==> lo <= i < hi)
         && (lo <= i < hi ==> rows[i].user == user)
  }

  /** Rows are only ever appended, renewed and released. */
  ghost predicate Grows(a: seq<Row>, b: seq<Row>) {
    && |a| <= |b|
    && forall i :: 0 <= i < |a| ==>
         && b[i] == a[i].(renewed := b[i].renewed, released := b[i].released)
         && (a[i].released ==> b[i].released)
  }

  lemma {:induction false} ReleaseEachGrows(t: Tables, ids: seq<Dev>, user: User, admin: bool)
    ensures Grows(t.rows, ReleaseEach(t, ids, user, admin).rows)
    ensures |ReleaseEach(t, ids, user, admin).rows| == |t.rows|
    decreases |ids|
  {
    if ids != [] {
      var t' := OrSame(ReleaseTx(t, ids[0], user, admin), t);
      assert Grows(t.rows, t'.rows);
      ReleaseEachGrows(t', ids[1..], user, admin);
    }
  }

  /** The batch a step books under, if it books. */
  function BooksUnder(a: Step): Option<Batch> {
    match a
    case BookOne(_, _, batch, _) => Some(batch)
    case BookMany(_, _, batch, _) => Some(batch)
    case _ => None
  }

  lemma StepGrows(t: Tables, a: Step, c: Config)
    ensures var rows' := Apply(t, a, c).rows;
      && Grows(t.rows, rows')
      && forall i :: |t.rows| <= i < |rows'| ==> BooksUnder(a) == Some(rows'[i].batch)
  {
    match a
    case BookMany(ids, user, batch, now) =>
      if BookAll(t, ids, user, batch, now, c).Some? {
        BookAllAdds(t, ids, user, batch, now, c);
      }
    case ReleaseWhole(batch, user, admin) => ReleaseEachGrows(t, BatchList(t, batch, user, admin), user, admin);
    case ReapAt(now) => ReleaseEachGrows(t, DevsWhere(t.rows, StaleAt(now, c)), "", true);
    case _ =>
  }

  /** Batch ids are fresh, so no later booking joins the batch. */
  lemma {:induction false} TookKept(ts: seq<Tables>, steps: seq<Step>, c: Config, n: nat, batch: Batch, user: User, lo: nat, hi: nat)
    requires Execution(ts, steps, c) && n <= |steps| && OneActive(ts[0].rows)
    requires Took(ts[0].rows, batch, user, lo, hi)
    requires forall k :: 0 <= k < |steps| ==> BooksUnder(steps[k]) != Some(batch)
    ensures Took(ts[n].rows, batch, user, lo, hi) && OneActive(ts[n].rows) && Grows(ts[0].rows, ts[n].rows)
  {
    if n > 0 {
      var k := n - 1;
      TookKept(ts, steps, c, k, batch, user, lo, hi);
      StepGrows(ts[k], steps[k], c);
      OneActiveAlways(ts[k], steps[k], c);
      assert ts[k + 1] == Apply(ts[k], steps[k], c);
    }
  }

  /** A forced batch release frees exactly the still-active rows of the batch. */
  lemma ReleaseWholeExact(t: Tables, batch: Batch, user: User, lo: nat, hi: nat)
    requires OneActive(t.rows) && Took(t.rows, batch, user, lo, hi) && batch != MINE
    ensures var t' := ReleaseEach(t, BatchList(t, batch, user, true), user, true);
      && |t'.rows| == |t.rows|
      && forall i :: 0 <= i < |t.rows| ==>
           t'.rows[i] == if lo <= i < hi then t.rows[i].(released := true) else t.rows[i]
  {
    var own, whole := OwnBatch(batch, user), WholeBatch(batch);
    var q := if DevsWhere(t.rows, own) == [] then whole else own;
    assert BatchList(t, batch, user, true) == DevsWhere(t.rows, q);
    ReleaseSelected(t, q, user);
    forall i | 0 <= i < |t.rows|
      ensures Selects(q, t.rows[i]) <==> !t.rows[i].released && lo <= i < hi
    {
      if lo <= i < hi && !t.rows[i].released {
        assert Selects(own, t.rows[i]) && Selects(whole, t.rows[i]);
      }
    }
  }

  lemma BookedUnder(t: Tables, ids: seq<Dev>, user: User, batch: Batch, now: Time, c: Config)
    requires OneActive(t.rows) && BookAll(t, ids, user, batch, now, c).Some?
    requires forall i :: 0 <= i < |t.rows| ==> t.rows[i].batch != batch
    ensures var rows := BookAll(t, ids, user, batch, now, c).value.rows;
      OneActive(rows) && Took(rows, batch, user, |t.rows|, |t.rows| + |ids|)
  {
    BookAllAdds(t, ids, user, batch, now, c);
    OneActiveAlways(t, BookMany(ids, user, batch, now), c);
    hide BookAll, OneActive, HasActive;
  }

  /** A run that booked its devices under a fresh batch, whatever happens to the tables meanwhile,
      finally releases exactly those of its own reservations that are still active. */
  lemma RunReleasesItsOwn(t: Tables, ids: seq<Dev>, user: User, batch: Batch, now: Time, c: Config,
                          ts: seq<Tables>, steps: seq<Step>)
    requires OneActive(t.rows) && batch != MINE
    requires forall i :: 0 <= i < |t.rows| ==> t.rows[i].batch != batch
    requires BookAll(t, ids, user, batch, now, c).Some?
    requires Execution(ts, steps, c) && ts[0] == BookAll(t, ids, user, batch, now, c).value
    requires forall k :: 0 <= k < |steps| ==> BooksUnder(steps[k]) != Some(batch)
    ensures var last := ts[|steps|];
      var end := Apply(last, ReleaseWhole(batch, user, true), c);
      var lo, hi := |t.rows|, |t.rows| + |ids|;
      && hi <= |last.rows| == |end.rows|
      && forall i :: 0 <= i < |last.rows| ==>
           end.rows[i] == if lo <= i < hi then last.rows[i].(released := true) else last.rows[i]
  {
    BookedUnder(t, ids, user, batch, now, c);
    var lo, hi := |t.rows|, |t.rows| + |ids|;
    TookKept(ts, steps, c, |steps|, batch, user, lo, hi);
    ReleaseWholeExact(ts[|steps|], batch, user, lo, hi);
  }

  // ----- why a batch release has to be one step -----

  /** A forced release from a list of devices spares the rows of other batches exactly when no
      active row of another batch is on one of these devices. */
  lemma ListSparesOthers(t: Tables, ids: seq<Dev>, user: User, batch: Batch)
    ensures |ReleaseEach(t, ids, user, true).rows| == |t.rows|
    ensures (forall i :: 0 <= i < |t.rows| && t.rows[i].batch != batch ==>
               ReleaseEach(t, ids, user, true).rows[i] == t.rows[i])
       <==> (forall i :: 0 <= i < |t.rows| && t.rows[i].batch != batch && t.rows[i].dev in ids ==>
               t.rows[i].released)
  {
    ReleaseEachRows(t, ids, user);
    forall i | 0 <= i < |t.rows| && t.rows[i].dev in ids
      ensures ReleaseEach(t, ids, user, true).rows[i] == t.rows[i] <==> t.rows[i].released
    {}
  }

  /** When the device changes hands between the query and the release, the new holder loses it. */
  lemma StaleListTakesNewHold(c: Config)
    ensures var t := Tables(map["phone" := Device(Reserved, true)],
                            [Row("phone", "ann", "b1", 0, 0, c.maxLease, false)]);
      var ids := BatchList(t, "b1", "ann", true);
      var t1 := Apply(t, ReleaseOne("phone", "ann", false), c);
      var t2 := Apply(t1, BookOne("phone", "bob", "b2", 1), c);
      && ids == ["phone"]
      && |t2.rows| == 2 && t2.rows[1].user == "bob" && !t2.rows[1].released
      && |ReleaseEach(t2, ids, "ann", true).rows| == 2 && ReleaseEach(t2, ids, "ann", true).rows[1].released
  {
    var r := Row("phone", "ann", "b1", 0, 0, c.maxLease, false);
    var t := Tables(map["phone" := Device(Reserved, true)], [r]);
    assert t.rows[..0] == [];
    var own := OwnBatch("b1", "ann");
    assert DevsWhere(t.rows[..0], own) == [] && Selects(own, r);
    assert DevsWhere(t.rows, own) == [] + ["phone"];
    assert Releasable(t.rows[0], "phone", "ann", false);
    var t1 := Apply(t, ReleaseOne("phone", "ann", false), c);
    assert !HasActive(t1.rows, "phone");
    var t2 := Apply(t1, BookOne("phone", "bob", "b2", 1), c);
    assert t2.rows[1].user == "bob";
    ReleaseEachRows(t2, ["phone"], "ann");
  }
}
