/** Submitting a run: reuse the caller's own hold or book a fresh batch, and give it back when the
    run cannot be recorded. */
module Submit {
  import opened Basics
  import opened Farm
  import opened Reservations
  import opened BatchOwnership
  import Safety = ReservationSafety
  import opened Runs

  datatype Refused = UnknownDevice | NoDevice | HeldByOther | Mixed | NotBooked(e: Error) | NotRecorded

  datatype Submitted = Accepted(id: nat) | Rejected(why: Refused)

  /** The user of the active reservation of a device. */
  function Holder(rows: seq<Row>, d: Dev): (u: Option<User>)
    ensures u.Some? <==> HasActive(rows, d)
    ensures u.Some? ==> exists i :: 0 <= i < |rows| && ActiveOn(rows[i], d) && rows[i].user == u.value
    decreases |rows|
  {
    if rows == [] then None
    else
      var n := |rows| - 1;
      assert forall i :: 0 <= i < n ==> rows[..n][i] == rows[i];
      var front := Holder(rows[..n], d);
      if front.Some? then
        assert exists i :: 0 <= i < n && ActiveOn(rows[..n][i], d) && rows[..n][i].user == front.value;
        front
      else if ActiveOn(rows[n], d) then Some(rows[n].user)
      else None
  }

  predicate HeldBy(rows: seq<Row>, d: Dev, user: User) { Holder(rows, d) == Some(user) }

  /** The batch is new to the table. */
  ghost predicate FreshBatch(rows: seq<Row>, batch: Batch) {
    batch != MINE && batch != BORROWED && forall i :: 0 <= i < |rows| ==> rows[i].batch != batch
  }

  /** Rows were added, and every added one is released again. */
  ghost predicate OnlyReleasedAdded(before: seq<Row>, after: seq<Row>) {
    && |before| <= |after|
    && after[..|before|] == before
    && forall i :: |before| <= i < |after| ==> after[i].released
  }

  method Dedup(ids: seq<Dev>) returns (out: seq<Dev>)
    ensures Distinct(out) && forall d :: d in out <==> d in ids
    ensures out == [] <==> ids == []
  {
    out := [];
    for k := 0 to |ids|
      invariant Distinct(out) && forall d :: d in out <==> d in ids[..k]
      invariant out == [] <==> k == 0
    {
      if ids[k] !in out {
        out := out + [ids[k]];
      }
    }
    assert ids[..|ids|] == ids;
  }

  /** The devices exist, and there is one at least. */
  ghost predicate Known(t: Tables, devs: seq<Dev>) { devs != [] && forall d :: d in devs ==> d in t.devices }

  /** All devices are the user's already. */
  ghost predicate AllHeld(t: Tables, devs: seq<Dev>, user: User) { forall d :: d in devs ==> HeldBy(t.rows, d, user) }

  /** All devices can be booked. */
  ghost predicate AllFree(t: Tables, devs: seq<Dev>) { forall d :: d in devs ==> Bookable(t, d) && !HasActive(t.rows, d) }

  ghost predicate NoneActive(t: Tables, devs: seq<Dev>) { forall d :: d in devs ==> !HasActive(t.rows, d) }

  /** Why a submission is refused, if it is: an unknown device, none at all, one held by somebody else,
      a mix of held and free ones, a booking that fails, or a run that cannot be recorded. */
  ghost function RefusalOf(t: Tables, devs: seq<Dev>, user: User): Refused {
    if exists d :: d in devs && d !in t.devices then UnknownDevice
    else if devs == [] then NoDevice
    else if exists d :: d in devs && HasActive(t.rows, d) && !HeldBy(t.rows, d, user) then HeldByOther
    else if AllHeld(t, devs, user) then NotRecorded
    else if exists d :: d in devs && HeldBy(t.rows, d, user) then Mixed
    else if !AllFree(t, devs) then NotBooked(Taken)
    else NotRecorded
  }

  class Runner {
    const store: Store
    const table: RunStore

    constructor (store: Store, table: RunStore)
      ensures this.store == store && this.table == table
    {
      this.store, this.table := store, table;
    }

    /** Counts the devices the user holds and the free ones; stops at one held by somebody else. */
    method Survey(ids: seq<Dev>, user: User) returns (held: nat, free: nat, other: bool)
      ensures other <==> exists d :: d in ids && HasActive(store.rows, d) && !HeldBy(store.rows, d, user)
      ensures !other ==> (held == 0 <==> forall d :: d in ids ==> !HasActive(store.rows, d))
      ensures !other ==> (free == 0 <==> forall d :: d in ids ==> HeldBy(store.rows, d, user))
    {
      held, free, other := 0, 0, false;
      for k := 0 to |ids|
        invariant forall d :: d in ids[..k] ==> HeldBy(store.rows, d, user) || !HasActive(store.rows, d)
        invariant held == 0 <==> forall d :: d in ids[..k] ==> !HasActive(store.rows, d)
        invariant free == 0 <==> forall d :: d in ids[..k] ==> HeldBy(store.rows, d, user)
      {
        var d := ids[k];
        assert ids[..k + 1] == ids[..k] + [d];
        assert forall e :: e in ids[..k + 1] <==> e in ids[..k] || e == d;
        var h := Holder(store.rows, d);
        if h == Some(user) {
          held := held + 1;
        } else if h.Some? {
          other := true;
          assert d in ids;
          return;
        } else {
          free := free + 1;
          assert d in ids[..k + 1] && !HeldBy(store.rows, d, user);
        }
      }
      assert ids[..|ids|] == ids;
    }

    method Take(ids: seq<Dev>, user: User, batch: Batch, now: Time, c: Config) returns (r: Result<Batch>)
      modifies store
      ensures r.Ok? <==>
        ids != [] && Distinct(ids) && forall d :: d in ids ==> Bookable(old(store.State()), d) && !HasActive(old(store.rows), d)
      ensures r.Ok? ==> r.value == batch && Some(store.State()) == BookAll(old(store.State()), ids, user, batch, now, c)
      ensures r.Err? ==> store.State() == old(store.State())
    {
      hide BookAll, HasActive, AllReserved, FirstUnbookable, Refusal;
      r := store.ReserveMany(ids, user, batch, now, c);
    }

    method Record(user: User, own: Batch, devs: set<Dev>) returns (id: nat)
      modifies table
      ensures id == |old(table.runs)| && table.runs == old(table.runs) + [NewRun(user, own, devs)]
    {
      hide Queue, Orphans, NewRun;
      id := table.CreateRun(user, own, devs);
      IsNewRun(table.runs[id], devs);
    }

    method Submit(user: User, devs: seq<Dev>, batch: Batch, now: Time, c: Config, recorded: bool)
      returns (r: Submitted)
      requires OneActive(store.rows) && FreshBatch(store.rows, batch)
      modifies store, table
      // accepted exactly when the devices are all the caller's already, or all bookable
      ensures r.Accepted? <==>
        && recorded && Known(old(store.State()), devs)
        && (AllHeld(old(store.State()), devs, user) || AllFree(old(store.State()), devs))
      // one run is recorded
      ensures r.Accepted? ==>
        && r.id == |old(table.runs)| < |table.runs|
        && table.runs == old(table.runs) + [table.runs[r.id]]
        && table.runs[r.id] == NewRun(user, table.runs[r.id].batch, set d | d in devs)
        && table.runs[r.id].batch in {batch, BORROWED}
      // accepted on the caller's own hold: no reservation is touched
      ensures r.Accepted? && table.runs[r.id].batch == BORROWED ==>
        store.State() == old(store.State()) && AllHeld(store.State(), devs, user)
      // accepted on a fresh batch: exactly the run's devices are booked under it
      ensures r.Accepted? && table.runs[r.id].batch != BORROWED ==>
        exists ids :: Distinct(ids) && (forall d :: d in ids <==> d in devs) &&
          Some(store.State()) == BookAll(old(store.State()), ids, user, batch, now, c)
      // rejected: nothing is recorded, and whatever was booked is released again
      ensures r.Rejected? ==>
        && table.runs == old(table.runs)
        && OnlyReleasedAdded(old(store.rows), store.rows)
        && store.devices == old(store.devices)
      // ... and the reason is the first that applies
      ensures r.Rejected? ==>
        r.why == RefusalOf(old(store.State()), devs, user) || (r.why.NotBooked? && RefusalOf(old(store.State()), devs, user).NotBooked?)
      ensures r.Rejected? && r.why == NotRecorded ==> !recorded
    {
      hide BookAll, HeldBy, HasActive, Bookable, RefusalOf, Known, AllHeld, AllFree, NoneActive;
      ghost var before := store.State();
      var ids, why, borrows := CheckDevices(devs, user);
      if why.Some? {
        return Rejected(why.value);
      }
      var own := BORROWED;
      if !borrows {
        FreeOnceEach(before, devs, ids);
        var booked := Take(ids, user, batch, now, c);
        if booked.Err? {
          NotBookable(before, devs, user);
          return Rejected(NotBooked(booked.error));
        }
        own := booked.value;
      }
      if !recorded {
        if own != BORROWED {
          ghost var booked := store.State();
          var _ := store.ReleaseBatch(own, user, true);
          GivenBack(before, ids, user, batch, now, c, booked);
        }
        NothingRefused(before, devs, user);
        return Rejected(NotRecorded);
      }
      var id := Record(user, own, set d | d in devs);
      return Accepted(id);
    }

    /** The devices once each, and either why they cannot be taken or whether they are all the
        caller's already. */
    method CheckDevices(devs: seq<Dev>, user: User) returns (ids: seq<Dev>, why: Option<Refused>, borrows: bool)
      ensures why.Some? ==> why.value == RefusalOf(store.State(), devs, user) && why.value != NotRecorded
      ensures var t := store.State(); why.Some? ==> !Known(t, devs) || !(AllHeld(t, devs, user) || AllFree(t, devs))
      ensures why == None ==> ids != [] && Distinct(ids) && (forall d :: d in ids <==> d in devs) && Known(store.State(), devs)
      ensures why == None && borrows ==> AllHeld(store.State(), devs, user)
      ensures why == None && !borrows ==> NoneActive(store.State(), devs)
    {
      hide HasActive;
      ids := Dedup(devs);
      why, borrows := None, false;
      for k := 0 to |ids|
        invariant forall d :: d in ids[..k] ==> d in store.devices
      {
        if ids[k] !in store.devices {
          assert ids[k] in devs;
          return ids, Some(UnknownDevice), false;
        }
      }
      assert ids[..|ids|] == ids;
      if |ids| == 0 {
        return ids, Some(NoDevice), false;
      }
      assert ids[0] in devs;
      var held, free, other := Survey(ids, user);
      if other {
        return ids, Some(HeldByOther), false;
      }
      if held > 0 && free > 0 {
        return ids, Some(Mixed), false;
      }
      borrows := free == 0;
    }
  }

  lemma FreeOnceEach(t: Tables, devs: seq<Dev>, ids: seq<Dev>)
    requires forall d :: d in ids <==> d in devs
    ensures AllFree(t, devs) <==> forall d :: d in ids ==> Bookable(t, d) && !HasActive(t.rows, d)
  {
    hide HasActive, Bookable;
  }

  lemma NotBookable(t: Tables, devs: seq<Dev>, user: User)
    requires Known(t, devs) && NoneActive(t, devs) && !AllFree(t, devs)
    ensures RefusalOf(t, devs, user).NotBooked? && !AllHeld(t, devs, user)
  {
    assert devs[0] in devs;
    hide HasActive, Bookable;
  }

  lemma NothingRefused(t: Tables, devs: seq<Dev>, user: User)
    requires Known(t, devs) && (AllHeld(t, devs, user) || AllFree(t, devs))
    ensures RefusalOf(t, devs, user) == NotRecorded
  {
    assert devs[0] in devs;
    hide HasActive, Bookable;
  }

  /** Booking under a fresh batch and releasing that batch restores every device, and every row
      that was there before. */
  lemma GivenBack(t: Tables, ids: seq<Dev>, user: User, batch: Batch, now: Time, c: Config, booked: Tables)
    requires OneActive(t.rows) && FreshBatch(t.rows, batch)
    requires forall d :: d in ids ==> Bookable(t, d)
    requires BookAll(t, ids, user, batch, now, c) == Some(booked)
    ensures var t' := ReleaseEach(booked, Safety.BatchList(booked, batch, user, true), user, true);
      OnlyReleasedAdded(t.rows, t'.rows) && t'.devices == t.devices
  {
    hide *;
    RowsGivenBack(t, ids, user, batch, now, c, booked);
    forall d | d in t.devices
      ensures d in ReleaseEach(booked, Safety.BatchList(booked, batch, user, true), user, true).devices
      ensures ReleaseEach(booked, Safety.BatchList(booked, batch, user, true), user, true).devices[d] == t.devices[d]
    {
      OneGivenBack(t, ids, user, batch, now, c, booked, d);
    }
    NoNewDevices(t, ids, user, batch, now, c, booked);
  }

  lemma NoNewDevices(t: Tables, ids: seq<Dev>, user: User, batch: Batch, now: Time, c: Config, booked: Tables)
    requires BookAll(t, ids, user, batch, now, c) == Some(booked)
    ensures ReleaseEach(booked, Safety.BatchList(booked, batch, user, true), user, true).devices.Keys == t.devices.Keys
  {
    hide Safety.BatchList, BookAll, ReleaseEach, NewRows;
    BookAllAdds(t, ids, user, batch, now, c);
    ReleaseEachStatuses(booked, Safety.BatchList(booked, batch, user, true), user);
  }

  lemma OneGivenBack(t: Tables, ids: seq<Dev>, user: User, batch: Batch, now: Time, c: Config, booked: Tables, d: Dev)
    requires OneActive(t.rows) && FreshBatch(t.rows, batch) && d in t.devices
    requires forall e :: e in ids ==> Bookable(t, e)
    requires BookAll(t, ids, user, batch, now, c) == Some(booked)
    ensures var t' := ReleaseEach(booked, Safety.BatchList(booked, batch, user, true), user, true);
      d in t'.devices && t'.devices[d] == t.devices[d]
  {
    assert batch != MINE && (d in ids ==> Bookable(t, d));
    hide BookAll, NewRows, Took, HasActive, Safety.BatchList, ReleaseEach, OneActive, FreeIfHeld, Bookable;
    BookAllAdds(t, ids, user, batch, now, c);
    BookedUnder(t, ids, user, batch, now, c);
    hide FreshBatch;
    assert booked.rows[|t.rows|..] == NewRows(ids, user, batch, now, c);
    BookedAreListed(booked, ids, user, batch, |t.rows|, now, c, d);
    ReleaseEachStatuses(booked, Safety.BatchList(booked, batch, user, true), user);
    DeviceGivenBack(t, booked, ids, d);
  }

  lemma RowsGivenBack(t: Tables, ids: seq<Dev>, user: User, batch: Batch, now: Time, c: Config, booked: Tables)
    requires OneActive(t.rows) && FreshBatch(t.rows, batch)
    requires BookAll(t, ids, user, batch, now, c) == Some(booked)
    ensures OnlyReleasedAdded(t.rows,
      ReleaseEach(booked, Safety.BatchList(booked, batch, user, true), user, true).rows)
  {
    var lo, hi := |t.rows|, |t.rows| + |ids|;
    BookAllAdds(t, ids, user, batch, now, c);
    BookedUnder(t, ids, user, batch, now, c);
    hide BookAll, OneActive, Took, ReleaseEach, Safety.BatchList;
    ReleaseWholeExact(booked, batch, user, lo, hi);
  }

  /** Booking a free device and freeing it again restores its status. */
  lemma DeviceGivenBack(t: Tables, booked: Tables, ids: seq<Dev>, d: Dev)
    requires AllReserved(t.devices, booked.devices, ids) && d in t.devices
    requires d in ids ==> Bookable(t, d)
    ensures (if d in ids then FreeIfHeld(booked.devices, d)[d] else booked.devices[d]) == t.devices[d]
  {}

  /** The batch's device list is the list that was booked. */
  lemma BookedAreListed(booked: Tables, ids: seq<Dev>, user: User, batch: Batch, lo: nat, now: Time, c: Config, d: Dev)
    requires Took(booked.rows, batch, user, lo, lo + |ids|) && |booked.rows| == lo + |ids| && batch != MINE
    requires booked.rows[lo..] == NewRows(ids, user, batch, now, c)
    ensures d in Safety.BatchList(booked, batch, user, true) <==> d in ids
    ensures d in ids ==> HasActive(booked.rows, d)
  {
    forall k | 0 <= k < |ids|
      ensures booked.rows[lo + k] == NewRow(ids[k], user, batch, now, c)
    {
      assert booked.rows[lo..][k] == NewRows(ids, user, batch, now, c)[k];
    }
    var own, whole := OwnBatch(batch, user), WholeBatch(batch);
    forall i | 0 <= i < |booked.rows|
      ensures Selects(own, booked.rows[i]) <==> lo <= i
      ensures Selects(whole, booked.rows[i]) <==> lo <= i
    {
      assert lo <= i ==> booked.rows[i] == NewRow(ids[i - lo], user, batch, now, c);
    }
    if d in ids {
      var k :| 0 <= k < |ids| && ids[k] == d;
      assert Selects(own, booked.rows[lo + k]) && ActiveOn(booked.rows[lo + k], d);
    }
  }

  /** A forced release of a list frees the held devices of the list that had an active row. */
  lemma {:induction false} ReleaseEachStatuses(t: Tables, ids: seq<Dev>, user: User)
    ensures var t' := ReleaseEach(t, ids, user, true);
      && t'.devices.Keys == t.devices.Keys
      && forall d :: d in t.devices ==>
           t'.devices[d] == if d in ids && HasActive(t.rows, d) then FreeIfHeld(t.devices, d)[d] else t.devices[d]
    decreases |ids|
  {
    if ids != [] {
      var e, rest := ids[0], ids[1..];
      var next := ReleaseTx(t, e, user, true);
      var t1 := if next.Some? then next.value else t;
      assert next.Some? <==> HasActive(t.rows, e) by {
        if HasActive(t.rows, e) {
          var i :| 0 <= i < |t.rows| && ActiveOn(t.rows[i], e);
          assert Releasable(t.rows[i], e, user, true);
        }
      }
      ReleaseEachStatuses(t1, rest, user);
      forall d
        ensures HasActive(t1.rows, d) <==> HasActive(t.rows, d) && d != e
      {
        ActiveAfterForced(t, e, user, d);
      }
    }
  }

  lemma ActiveAfterForced(t: Tables, e: Dev, user: User, d: Dev)
    ensures HasActive(Safety.OrSame(ReleaseTx(t, e, user, true), t).rows, d) <==> HasActive(t.rows, d) && d != e
  {
    var rows' := Safety.OrSame(ReleaseTx(t, e, user, true), t).rows;
    if HasActive(t.rows, d) {
      var i :| 0 <= i < |t.rows| && ActiveOn(t.rows[i], d);
      assert ActiveOn(rows'[i], d) <==> d != e by {
        assert d == e ==> Releasable(t.rows[i], e, user, true);
      }
    }
    if HasActive(rows', d) {
      var i :| 0 <= i < |rows'| && ActiveOn(rows'[i], d);
      assert ActiveOn(t.rows[i], d) && !Releasable(t.rows[i], e, user, true);
    }
  }
}
