/** Device booking: one holder per device, leases with an idle timeout and a hard cap. */
module Reservations {
  import opened Basics
  import opened Farm

  datatype Error = NotFound | Taken | NotHolder | Unavailable | NoDevices

  datatype Result<+T> = Ok(value: T) | Err(error: Error)

  datatype Config = Config(idleTimeout: Time, maxLease: Time)

  // ----- transactions, as functions of the tables -----

  function NewRow(d: Dev, user: User, batch: Batch, now: Time, c: Config): Row {
    Row(d, user, batch, now, now, now + c.maxLease, false)
  }

  /** Insert and mark reserved; the unique index refuses a second active row. */
  function Book(t: Tables, d: Dev, user: User, batch: Batch, now: Time, c: Config): Option<Tables> {
    if HasActive(t.rows, d) then None
    else Some(Tables(WithStatus(t.devices, d, Reserved), t.rows + [NewRow(d, user, batch, now, c)]))
  }

  function BookAll(t: Tables, ids: seq<Dev>, user: User, batch: Batch, now: Time, c: Config): Option<Tables>
    decreases |ids|
  {
    if ids == [] then Some(t)
    else
      match Book(t, ids[0], user, batch, now, c)
      case None => None
      case Some(t') => BookAll(t', ids[1..], user, batch, now, c)
  }

  predicate Releasable(r: Row, d: Dev, user: User, admin: bool) {
    ActiveOn(r, d) && (admin || r.user == user)
  }

  function MarkReleased(rows: seq<Row>, d: Dev, user: User, admin: bool): (out: seq<Row>)
    ensures |out| == |rows|
    ensures forall i :: 0 <= i < |rows| ==>
      out[i] == if Releasable(rows[i], d, user, admin) then rows[i].(released := true) else rows[i]
  {
    seq(|rows|, i requires 0 <= i < |rows| =>
      if Releasable(rows[i], d, user, admin) then rows[i].(released := true) else rows[i])
  }

  function FreeIfHeld(devices: map<Dev, Device>, d: Dev): map<Dev, Device> {
    if d in devices && HeldStatus(devices[d].status) then WithStatus(devices, d, Free) else devices
  }

  function ReleaseTx(t: Tables, d: Dev, user: User, admin: bool): Option<Tables> {
    if exists i :: 0 <= i < |t.rows| && Releasable(t.rows[i], d, user, admin) then
      Some(Tables(FreeIfHeld(t.devices, d), MarkReleased(t.rows, d, user, admin)))
    else None
  }

  /** Releases one device after the other, ignoring those that are not held. */
  function ReleaseEach(t: Tables, ids: seq<Dev>, user: User, admin: bool): Tables
    decreases |ids|
  {
    if ids == [] then t
    else
      match ReleaseTx(t, ids[0], user, admin)
      case None => ReleaseEach(t, ids[1..], user, admin)
      case Some(t') => ReleaseEach(t', ids[1..], user, admin)
  }

  predicate InBatch(r: Row, batch: Batch, user: User) {
    !r.released && (batch == MINE || r.batch == batch) && r.user == user
  }

  predicate Stale(r: Row, now: Time, c: Config) {
    !r.released && (r.renewed < now - c.idleTimeout || r.expires < now)
  }

  /** A heartbeat by device or by batch. */
  datatype Beat = OfDevice(dev: Dev) | OfBatch(batch: Batch)

  predicate Beats(r: Row, b: Beat, user: User) {
    match b
    case OfDevice(d) => ActiveOn(r, d) && r.user == user
    case OfBatch(batch) => InBatch(r, batch, user)
  }

  function Renew(rows: seq<Row>, b: Beat, user: User, now: Time): (out: seq<Row>)
    ensures |out| == |rows|
    ensures forall i :: 0 <= i < |rows| ==>
      out[i] == if Beats(rows[i], b, user) then rows[i].(renewed := now) else rows[i]
  {
    seq(|rows|, i requires 0 <= i < |rows| =>
      if Beats(rows[i], b, user) then rows[i].(renewed := now) else rows[i])
  }

  /** The selections of active rows the manager queries for. */
  datatype Query = OwnBatch(batch: Batch, user: User) | WholeBatch(batch: Batch) | StaleAt(now: Time, c: Config)

  predicate Selects(q: Query, r: Row) {
    match q
    case OwnBatch(batch, user) => InBatch(r, batch, user)
    case WholeBatch(batch) => !r.released && r.batch == batch
    case StaleAt(now, c) => Stale(r, now, c)
  }

  /** The devices of the rows a query selects, in table order. */
  function DevsWhere(rows: seq<Row>, q: Query): (ids: seq<Dev>)
    ensures forall d :: d in ids <==> exists i :: 0 <= i < |rows| && Selects(q, rows[i]) && rows[i].dev == d
    decreases |rows|
  {
    if rows == [] then []
    else
      var rest := DevsWhere(rows[..|rows| - 1], q);
      var r := rows[|rows| - 1];
      assert forall i :: 0 <= i < |rows| ==> rows[i] in rows[..|rows| - 1] || rows[i] == r;
      assert forall i :: 0 <= i < |rows| - 1 ==> rows[..|rows| - 1][i] == rows[i];
      if Selects(q, r) then rest + [r.dev] else rest
  }

  // ----- booking several devices -----

  predicate Distinct(ids: seq<Dev>) {
    forall i, j :: 0 <= i < j < |ids| ==> ids[i] != ids[j]
  }

  lemma HasActiveAfter(rows: seq<Row>, r: Row, d: Dev)
    requires !r.released
    ensures HasActive(rows + [r], d) <==> HasActive(rows, d) || r.dev == d
  {
    var all := rows + [r];
    assert all[|rows|] == r;
    assert forall i :: 0 <= i < |rows| ==> all[i] == rows[i];
    if HasActive(rows, d) {
      var i :| 0 <= i < |rows| && ActiveOn(rows[i], d);
      assert ActiveOn(all[i], d);
    }
    if r.dev == d {
      assert ActiveOn(all[|rows|], d);
    }
  }

  /** Booking a list succeeds exactly when no device is repeated and none has an active row. */
  lemma {:induction false} BookAllSucceeds(t: Tables, ids: seq<Dev>, user: User, batch: Batch, now: Time, c: Config)
    ensures BookAll(t, ids, user, batch, now, c).Some? <==>
      Distinct(ids) && forall d :: d in ids ==> !HasActive(t.rows, d)
    decreases |ids|
  {
    if ids != [] {
      var d, rest := ids[0], ids[1..];
      assert Distinct(ids) <==> Distinct(rest) && d !in rest;
      assert forall e :: e in ids <==> e == d || e in rest;
      match Book(t, d, user, batch, now, c)
      case None =>
      case Some(t') =>
        BookAllSucceeds(t', rest, user, batch, now, c);
        forall e
          ensures HasActive(t'.rows, e) <==> HasActive(t.rows, e) || e == d
        {
          HasActiveAfter(t.rows, NewRow(d, user, batch, now, c), e);
        }
    }
  }

  function NewRows(ids: seq<Dev>, user: User, batch: Batch, now: Time, c: Config): (out: seq<Row>)
    ensures |out| == |ids| && forall i :: 0 <= i < |ids| ==> out[i] == NewRow(ids[i], user, batch, now, c)
  {
    seq(|ids|, i requires 0 <= i < |ids| => NewRow(ids[i], user, batch, now, c))
  }

  /** ... and then adds one row per device, in order, and marks exactly those devices reserved. */
  lemma {:induction false} BookAllAdds(t: Tables, ids: seq<Dev>, user: User, batch: Batch, now: Time, c: Config)
    requires BookAll(t, ids, user, batch, now, c).Some?
    ensures var t' := BookAll(t, ids, user, batch, now, c).value;
      && t'.rows == t.rows + NewRows(ids, user, batch, now, c)
      && AllReserved(t.devices, t'.devices, ids)
    decreases |ids|
  {
    hide NewRow, NewRows, AllReserved;
    NewRowsStep(ids, user, batch, now, c);
    if ids == [] {
      assert t.rows + [] == t.rows;
      assert AllReserved(t.devices, t.devices, ids) by { NothingReserved(t.devices); }
    } else {
      var t1 := Book(t, ids[0], user, batch, now, c).value;
      BookAllAdds(t1, ids[1..], user, batch, now, c);
      assert t1.rows + NewRows(ids[1..], user, batch, now, c)
          == t.rows + ([NewRow(ids[0], user, batch, now, c)] + NewRows(ids[1..], user, batch, now, c));
      ReservedStep(t.devices, BookAll(t, ids, user, batch, now, c).value.devices, ids);
    }
  }

  /** Exactly the listed devices are marked reserved, and nothing else about any device changes. */
  predicate AllReserved(before: map<Dev, Device>, after: map<Dev, Device>, ids: seq<Dev>) {
    && after.Keys == before.Keys
    && forall d :: d in before ==> after[d] == if d in ids then before[d].(status := Reserved) else before[d]
  }

  lemma NothingReserved(devices: map<Dev, Device>)
    ensures AllReserved(devices, devices, [])
  {}

  lemma ReservedStep(before: map<Dev, Device>, after: map<Dev, Device>, ids: seq<Dev>)
    requires ids != [] && AllReserved(WithStatus(before, ids[0], Reserved), after, ids[1..])
    ensures AllReserved(before, after, ids)
  {
    assert forall d :: d in ids <==> d == ids[0] || d in ids[1..];
  }

  lemma NewRowsStep(ids: seq<Dev>, user: User, batch: Batch, now: Time, c: Config)
    ensures NewRows(ids, user, batch, now, c) ==
      if ids == [] then []
      else [NewRow(ids[0], user, batch, now, c)] + NewRows(ids[1..], user, batch, now, c)
  {
    hide NewRow;
  }

  // ----- releasing: device by device, yet row by row -----

  /** A forced release of a list of devices frees exactly the active rows of those devices. */
  lemma {:induction false} ReleaseEachRows(t: Tables, ids: seq<Dev>, user: User)
    ensures var t' := ReleaseEach(t, ids, user, true);
      && |t'.rows| == |t.rows|
      && (forall i :: 0 <= i < |t.rows| ==>
            t'.rows[i] == if t.rows[i].dev in ids then t.rows[i].(released := true) else t.rows[i])
    decreases |ids|
  {
    if ids != [] {
      var next := ReleaseTx(t, ids[0], user, true);
      ReleaseEachRows(if next.Some? then next.value else t, ids[1..], user);
      assert forall i :: 0 <= i < |t.rows| ==> (t.rows[i].dev in ids <==> t.rows[i].dev == ids[0] || t.rows[i].dev in ids[1..]);
      if next == None {
        assert forall i :: 0 <= i < |t.rows| && t.rows[i].dev == ids[0] ==> !Releasable(t.rows[i], ids[0], user, true);
      }
    }
  }

  /** On devices whose active rows are the caller's own, no force is needed. */
  lemma {:induction false} OwnersNeedNoForce(t: Tables, ids: seq<Dev>, user: User)
    requires forall i :: 0 <= i < |t.rows| && !t.rows[i].released && t.rows[i].dev in ids ==> t.rows[i].user == user
    ensures ReleaseEach(t, ids, user, false) == ReleaseEach(t, ids, user, true)
    decreases |ids|
  {
    if ids != [] {
      assert forall i :: 0 <= i < |t.rows| ==> Releasable(t.rows[i], ids[0], user, false) == Releasable(t.rows[i], ids[0], user, true);
      assert MarkReleased(t.rows, ids[0], user, false) == MarkReleased(t.rows, ids[0], user, true);
      assert ReleaseTx(t, ids[0], user, false) == ReleaseTx(t, ids[0], user, true);
      var next := ReleaseTx(t, ids[0], user, true);
      OwnersNeedNoForce(if next.Some? then next.value else t, ids[1..], user);
    }
  }

  /** A user's own batch release ends exactly the user's active rows of the batch. */
  lemma ReleaseOwnBatch(t: Tables, batch: Batch, user: User)
    requires OneActive(t.rows)
    ensures var t' := ReleaseEach(t, DevsWhere(t.rows, OwnBatch(batch, user)), user, false);
      && |t'.rows| == |t.rows|
      && (forall i :: 0 <= i < |t.rows| ==>
            t'.rows[i] ==
              if t.rows[i].user == user && (batch == MINE || t.rows[i].batch == batch)
              then t.rows[i].(released := true) else t.rows[i])
  {
    var q := OwnBatch(batch, user);
    var ids := DevsWhere(t.rows, q);
    forall i | 0 <= i < |t.rows| && !t.rows[i].released && t.rows[i].dev in ids
      ensures t.rows[i].user == user
    {
      var j :| 0 <= j < |t.rows| && Selects(q, t.rows[j]) && t.rows[j].dev == t.rows[i].dev;
    }
    OwnersNeedNoForce(t, ids, user);
    ReleaseSelected(t, q, user);
    hide ReleaseEach, DevsWhere, OneActive;
  }

  /** With one active row per device, releasing the devices of the selected active rows releases
      those rows and no other. */
  lemma ReleaseSelected(t: Tables, q: Query, user: User)
    requires OneActive(t.rows)
    ensures var t' := ReleaseEach(t, DevsWhere(t.rows, q), user, true);
      && |t'.rows| == |t.rows|
      && (forall i :: 0 <= i < |t.rows| ==>
            t'.rows[i] == if Selects(q, t.rows[i]) then t.rows[i].(released := true) else t.rows[i])
  {
    var ids := DevsWhere(t.rows, q);
    ReleaseEachRows(t, ids, user);
    forall i | 0 <= i < |t.rows|
      ensures !t.rows[i].released ==> (t.rows[i].dev in ids <==> Selects(q, t.rows[i]))
    {
      if !t.rows[i].released && t.rows[i].dev in ids {
        var j :| 0 <= j < |t.rows| && Selects(q, t.rows[j]) && t.rows[j].dev == t.rows[i].dev;
      }
    }
  }

  // ----- the table operations of the manager -----

  predicate Bookable(t: Tables, d: Dev) {
    d in t.devices && t.devices[d].adopted && t.devices[d].status == Free
  }

  function Refusal(t: Tables, d: Dev): Error {
    if d !in t.devices then NotFound
    else if !t.devices[d].adopted then Unavailable
    else if HeldStatus(t.devices[d].status) || t.devices[d].status == Free then Taken
    else Unavailable
  }

  /** Position of the first device that cannot be booked, or |ids| when there is none. */
  function FirstUnbookable(t: Tables, ids: seq<Dev>): (k: nat)
    ensures k <= |ids|
    decreases |ids|
  {
    if ids == [] || !Bookable(t, ids[0]) then 0 else 1 + FirstUnbookable(t, ids[1..])
  }

  lemma {:induction false} FirstUnbookableIs(t: Tables, ids: seq<Dev>, k: nat)
    requires k < |ids| && forall d :: d in ids[..k] ==> Bookable(t, d)
    ensures !Bookable(t, ids[k]) ==> FirstUnbookable(t, ids) == k
    decreases k
  {
    if k > 0 {
      assert ids[0] in ids[..k];
      assert forall d :: d in ids[1..][..k - 1] ==> d in ids[..k];
      FirstUnbookableIs(t, ids[1..], k - 1);
    }
  }

  lemma {:induction false} AllBookable(t: Tables, ids: seq<Dev>)
    requires forall d :: d in ids ==> Bookable(t, d)
    ensures FirstUnbookable(t, ids) == |ids|
    decreases |ids|
  {
    if ids != [] { AllBookable(t, ids[1..]); }
  }

  class Store {
    var devices: map<Dev, Device>
    var rows: seq<Row>

    ghost function State(): Tables
      reads this
    {
      Tables(devices, rows)
    }

    constructor (devices: map<Dev, Device>)
      ensures State() == Tables(devices, [])
    {
      this.devices, rows := devices, [];
    }

    method Reserve(d: Dev, user: User, batch: Batch, now: Time, c: Config) returns (r: Result<nat>)
      modifies this
      ensures r.Ok? <==>
        d in old(devices) && old(devices)[d].adopted && old(devices)[d].status == Free && !HasActive(old(rows), d)
      // booked: one active row, renewed now, up to the hard cap, and the device marked reserved
      ensures r.Ok? ==>
        && r.value == |old(rows)|
        && rows == old(rows) + [Row(d, user, batch, now, now, now + c.maxLease, false)]
        && devices == old(devices)[d := old(devices)[d].(status := Reserved)]
      // refused: nothing changes
      ensures r.Err? ==> State() == old(State()) && r.error == Refusal(State(), d)
      ensures r.Err? && d !in devices ==> r.error == NotFound
      ensures r.Err? && d in devices ==>
        r.error == if devices[d].adopted && devices[d].status in {Free, Reserved, Busy, RunningTest} then Taken else Unavailable
    {
      if d !in devices {
        return Err(NotFound);
      }
      if !devices[d].adopted {
        return Err(Unavailable);
      }
      if HeldStatus(devices[d].status) {
        return Err(Taken);
      }
      if devices[d].status != Free {
        return Err(Unavailable);
      }
      var tx := Book(Tables(devices, rows), d, user, batch, now, c);
      if tx == None {
        return Err(Taken);
      }
      r := Ok(|rows|);
      devices, rows := tx.value.devices, tx.value.rows;
    }

    /** All or nothing: books every device, or changes nothing. */
    method ReserveMany(ids: seq<Dev>, user: User, batch: Batch, now: Time, c: Config) returns (r: Result<Batch>)
      modifies this
      ensures r.Ok? <==>
        && ids != [] && Distinct(ids)
        && forall d :: d in ids ==>
             d in old(devices) && old(devices)[d].adopted && old(devices)[d].status == Free && !HasActive(old(rows), d)
      ensures r.Ok? ==> r.value == batch && Some(State()) == BookAll(old(State()), ids, user, batch, now, c)
      ensures r.Ok? ==>
        && |rows| == |old(rows)| + |ids| && rows[..|old(rows)|] == old(rows)
        && (forall k :: 0 <= k < |ids| ==>
              rows[|old(rows)| + k] == Row(ids[k], user, batch, now, now, now + c.maxLease, false))
        && AllReserved(old(devices), devices, ids)
      ensures r.Err? ==> State() == old(State())
      ensures r.Err? ==>
        var k := FirstUnbookable(State(), ids);
        r.error == if ids == [] then NoDevices else if k < |ids| then Refusal(State(), ids[k]) else Taken
    {
      hide FirstUnbookable;
      if |ids| == 0 {
        return Err(NoDevices);
      }
      BookAllSucceeds(State(), ids, user, batch, now, c);
      for k := 0 to |ids|
        invariant State() == old(State())
        invariant forall d :: d in ids[..k] ==> Bookable(State(), d)
      {
        var d := ids[k];
        assert d in ids;
        FirstUnbookableIs(State(), ids, k);
        if d !in devices {
          return Err(NotFound);
        }
        if !devices[d].adopted {
          return Err(Unavailable);
        }
        if HeldStatus(devices[d].status) {
          return Err(Taken);
        }
        if devices[d].status != Free {
          return Err(Unavailable);
        }
      }
      assert ids[..|ids|] == ids;
      AllBookable(State(), ids);
      var tx := Tables(devices, rows);
      for k := 0 to |ids|
        invariant State() == old(State())
        invariant BookAll(tx, ids[k..], user, batch, now, c) == BookAll(State(), ids, user, batch, now, c)
      {
        assert ids[k..][1..] == ids[k + 1..];
        var next := Book(tx, ids[k], user, batch, now, c);
        if next == None {
          return Err(Taken);
        }
        tx := next.value;
      }
      BookAllAdds(State(), ids, user, batch, now, c);
      devices, rows := tx.devices, tx.rows;
      return Ok(batch);
    }

    /** Renews the caller's active rows of the device or batch; fails when there is none. */
    method Heartbeat(b: Beat, user: User, now: Time) returns (r: Result<()>)
      modifies `rows
      ensures rows == Renew(old(rows), b, user, now)
      ensures |rows| == |old(rows)|
      ensures forall i :: 0 <= i < |rows| ==>
        var was := old(rows)[i];
        var his := !was.released && was.user == user &&
          (match b case OfDevice(d) => was.dev == d case OfBatch(batch) => batch == MINE || was.batch == batch);
        rows[i] == if his then was.(renewed := now) else was
      ensures r == if exists i :: 0 <= i < |rows| && Beats(old(rows)[i], b, user) then Ok(()) else Err(NotHolder)
    {
      var was := rows;
      rows := Renew(was, b, user, now);
      if exists i :: 0 <= i < |was| && Beats(was[i], b, user) {
        return Ok(());
      }
      return Err(NotHolder);
    }

    /** Ends a device's reservation; a non-admin caller must be its holder. */
    method Release(d: Dev, user: User, admin: bool) returns (r: Result<()>)
      modifies this
      ensures ReleaseTx(old(State()), d, user, admin) == (if r.Ok? then Some(State()) else None)
      ensures r.Ok? <==> exists i :: 0 <= i < |old(rows)| && ActiveOn(old(rows)[i], d) && (admin || old(rows)[i].user == user)
      ensures r.Ok? ==>
        && |rows| == |old(rows)|
        && (forall i :: 0 <= i < |rows| ==>
              rows[i] == old(rows)[i].(released := old(rows)[i].released ||
                                                   (old(rows)[i].dev == d && (admin || old(rows)[i].user == user))))
        && devices == (if d in old(devices) && HeldStatus(old(devices)[d].status)
                       then old(devices)[d := old(devices)[d].(status := Free)] else old(devices))
      ensures r.Err? ==> r.error == NotHolder && State() == old(State())
    {
      var tx := ReleaseTx(Tables(devices, rows), d, user, admin);
      if tx == None {
        return Err(NotHolder);
      }
      devices, rows := tx.value.devices, tx.value.rows;
      return Ok(());
    }

    method BatchDevices(batch: Batch, user: User) returns (r: Result<seq<Dev>>)
      ensures var ids := DevsWhere(rows, OwnBatch(batch, user));
        r == if ids == [] then Err(NotHolder) else Ok(ids)
    {
      var ids := DevsWhere(rows, OwnBatch(batch, user));
      return if ids == [] then Err(NotHolder) else Ok(ids);
    }

    method ReleaseList(ids: seq<Dev>, user: User, admin: bool) returns (n: nat)
      modifies this
      ensures State() == ReleaseEach(old(State()), ids, user, admin)
      ensures n <= |ids|
      ensures (admin && Distinct(ids) && forall d :: d in ids ==> HasActive(old(rows), d)) ==> n == |ids|
    {
      n := 0;
      ghost var start := State();
      for k := 0 to |ids|
        invariant ReleaseEach(State(), ids[k..], user, admin) == ReleaseEach(start, ids, user, admin)
        invariant n <= k
        invariant admin && Distinct(ids) && (forall d :: d in ids ==> HasActive(start.rows, d)) ==>
          n == k && forall d :: d in ids[k..] ==> HasActive(rows, d)
      {
        assert ids[k..][1..] == ids[k + 1..];
        ghost var was := rows;
        var r := Release(ids[k], user, admin);
        if r.Ok? {
          n := n + 1;
        }
        ReleaseLeavesOthers(was, rows, ids, k, user, admin, r.Ok?);
      }
    }

    /** Releases a user's batch. With admin set, an empty selection falls back to the whole batch. */
    method ReleaseBatch(batch: Batch, user: User, admin: bool) returns (r: Result<()>)
      modifies this
      ensures var mine := DevsWhere(old(rows), OwnBatch(batch, user));
        var ids := if mine == [] && admin then DevsWhere(old(rows), WholeBatch(batch)) else mine;
        && State() == ReleaseEach(old(State()), ids, user, admin)
        && (r.Ok? <==> admin || mine != [])
    {
      var got := BatchDevices(batch, user);
      if got.Err? && !admin {
        return Err(NotHolder);
      }
      var ids := if got.Ok? then got.value else [];
      if admin && |ids| == 0 {
        ids := DevsWhere(rows, WholeBatch(batch));
      }
      var _ := ReleaseList(ids, user, admin);
      return Ok(());
    }

    /** Releases what is past its idle timeout or its cap, and counts it. */
    method ReapExpired(now: Time, c: Config) returns (n: nat)
      requires OneActive(rows)
      modifies this
      ensures State() == Reap(old(State()), now, c)
      ensures n == |set i | 0 <= i < |old(rows)| && Stale(old(rows)[i], now, c)|
    {
      var ids := DevsWhere(rows, StaleAt(now, c));
      StaleDevices(rows, now, c);
      n := ReleaseList(ids, "", true);
    }
  }

  // ----- what a booking, a heartbeat and a release are to each other -----

  /** The holder's release undoes a booking but for the released row; nobody else's release does anything. */
  lemma ReleaseUndoesBooking(t: Tables, d: Dev, user: User, batch: Batch, now: Time, c: Config, other: User)
    requires Bookable(t, d) && Book(t, d, user, batch, now, c).Some?
    ensures var booked := Book(t, d, user, batch, now, c).value;
      && !Bookable(booked, d) && Book(booked, d, other, batch, now, c) == None
      && ReleaseTx(booked, d, user, false) ==
           Some(Tables(t.devices, t.rows + [NewRow(d, user, batch, now, c).(released := true)]))
      && (other != user ==> ReleaseTx(booked, d, other, false) == None)
  {
    var row := NewRow(d, user, batch, now, c);
    var booked := Book(t, d, user, batch, now, c).value;
    assert booked.rows[|t.rows|] == row && ActiveOn(booked.rows[|t.rows|], d);
    assert forall i :: 0 <= i < |t.rows| ==> booked.rows[i] == t.rows[i] && !ActiveOn(t.rows[i], d);
    assert Releasable(booked.rows[|t.rows|], d, user, false);
    assert MarkReleased(booked.rows, d, user, false) == t.rows + [row.(released := true)];
    assert FreeIfHeld(booked.devices, d) == t.devices;
    forall i | 0 <= i < |booked.rows|
      ensures other != user ==> !Releasable(booked.rows[i], d, other, false)
    {}
  }

  /** A heartbeat buys its own rows exactly the idle timeout from now, up to their cap, and changes
      nothing about what the reaper does to any other row. */
  lemma HeartbeatThenReap(t: Tables, b: Beat, user: User, now: Time, later: Time, c: Config, i: nat)
    requires OneActive(t.rows) && i < |t.rows|
    ensures var renewed := t.(rows := Renew(t.rows, b, user, now));
      && |Reap(renewed, later, c).rows| == |Reap(t, later, c).rows| == |t.rows|
      && Reap(renewed, later, c).rows[i] ==
           if !Beats(t.rows[i], b, user) then Reap(t, later, c).rows[i]
           else t.rows[i].(renewed := now, released := later > now + c.idleTimeout || later > t.rows[i].expires)
  {
    var renewed := t.(rows := Renew(t.rows, b, user, now));
    assert OneActive(renewed.rows);
    hide OneActive, Renew, ReleaseEach;
    ReleaseSelected(t, StaleAt(later, c), "");
    ReleaseSelected(renewed, StaleAt(later, c), "");
  }

  /** The whole reaper pass; the user of a forced release is not looked at. */
  function Reap(t: Tables, now: Time, c: Config): Tables {
    ReleaseEach(t, DevsWhere(t.rows, StaleAt(now, c)), "", true)
  }

  lemma ReleaseLeavesOthers(was: seq<Row>, rows: seq<Row>, ids: seq<Dev>, k: nat, user: User, admin: bool, ok: bool)
    requires k < |ids|
    requires rows == if ok then MarkReleased(was, ids[k], user, admin) else was
    ensures Distinct(ids) && (forall d :: d in ids[k..] ==> HasActive(was, d)) ==>
      forall d :: d in ids[k + 1..] ==> HasActive(rows, d)
    ensures admin && HasActive(was, ids[k]) ==>
      exists i :: 0 <= i < |was| && Releasable(was[i], ids[k], user, admin)
  {
    if Distinct(ids) && forall d :: d in ids[k..] ==> HasActive(was, d) {
      forall d | d in ids[k + 1..]
        ensures HasActive(rows, d)
      {
        assert d in ids[k..];
        var i :| 0 <= i < |was| && ActiveOn(was[i], d);
        assert ActiveOn(rows[i], d);
      }
    }
    if HasActive(was, ids[k]) {
      var i :| 0 <= i < |was| && ActiveOn(was[i], ids[k]);
    }
  }

  function RowsWhere(rows: seq<Row>, q: Query): set<nat> {
    set i | 0 <= i < |rows| && Selects(q, rows[i])
  }

  /** One device per selected active row: the query has no repetitions ... */
  lemma {:induction false} DevsWhereDistinct(rows: seq<Row>, q: Query)
    requires OneActive(rows)
    ensures Distinct(DevsWhere(rows, q))
    decreases |rows|
  {
    if rows != [] {
      hide Selects;
      var n := |rows| - 1;
      var front := rows[..n];
      DevsWhereDistinct(front, q);
      if Selects(q, rows[n]) {
        SelectedIsActive(q, rows[n]);
        forall i | 0 <= i < |front| && Selects(q, front[i])
          ensures rows[n].dev != front[i].dev
        {
          SelectedIsActive(q, front[i]);
        }
        assert rows[n].dev !in DevsWhere(front, q);
        assert DevsWhere(rows, q) == DevsWhere(front, q) + [rows[n].dev];
      }
    }
  }

  lemma SelectedIsActive(q: Query, r: Row)
    requires Selects(q, r)
    ensures !r.released
  {}

  /** ... and loses none. */
  lemma {:induction false} DevsWhereSize(rows: seq<Row>, q: Query)
    ensures |DevsWhere(rows, q)| == |RowsWhere(rows, q)|
    decreases |rows|
  {
    if rows != [] {
      hide Selects;
      var n := |rows| - 1;
      DevsWhereSize(rows[..n], q);
      assert RowsWhere(rows, q) == RowsWhere(rows[..n], q) + if Selects(q, rows[n]) then {n} else {};
    }
  }

  lemma StaleDevices(rows: seq<Row>, now: Time, c: Config)
    requires OneActive(rows)
    ensures var ids := DevsWhere(rows, StaleAt(now, c));
      && Distinct(ids)
      && (forall d :: d in ids ==> HasActive(rows, d))
      && |ids| == |set i | 0 <= i < |rows| && Stale(rows[i], now, c)|
  {
    var q := StaleAt(now, c);
    DevsWhereDistinct(rows, q);
    DevsWhereSize(rows, q);
    assert RowsWhere(rows, q) == set i | 0 <= i < |rows| && Stale(rows[i], now, c);
    forall d | d in DevsWhere(rows, q)
      ensures HasActive(rows, d)
    {
      var i :| 0 <= i < |rows| && Selects(q, rows[i]) && rows[i].dev == d;
      assert ActiveOn(rows[i], d);
    }
  }
}
