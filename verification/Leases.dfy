/** How long a reservation lives: heartbeats, the idle timeout and the hard cap. */
module Leases {
  import opened Basics
  import opened Farm
  import opened Reservations
  import opened ReservationSafety
  import opened BatchOwnership

  /** The step releases neither the row's device nor its batch by name. */
  predicate Quiet(a: Step, r: Row) {
    match a
    case ReleaseOne(d, _, _) => d != r.dev
    case ReleaseWhole(batch, _, _) => batch != r.batch && batch != MINE
    case _ => true
  }

  predicate Renews(a: Step, r: Row) {
    a.BeatAt? && a.user == r.user &&
    match a.beat
    case OfDevice(d) => d == r.dev
    case OfBatch(batch) => batch == MINE || batch == r.batch
  }

  /** What one step means for one row. */
  function RowAfter(r: Row, a: Step, c: Config): Row {
    if r.released then r
    else if Renews(a, r) then r.(renewed := a.now)
    else if a.ReapAt? && Stale(r, a.now, c) then r.(released := true)
    else r
  }

  /** The reaper goes by device, yet a row is released by nobody's staleness but its own. */
  lemma StepRow(t: Tables, a: Step, c: Config, i: nat)
    requires OneActive(t.rows) && i < |t.rows| && Quiet(a, t.rows[i])
    ensures i < |Apply(t, a, c).rows| && Apply(t, a, c).rows[i] == RowAfter(t.rows[i], a, c)
  {
    match a
    case BookMany(ids, user, batch, now) =>
      if BookAll(t, ids, user, batch, now, c).Some? {
        BookAllAdds(t, ids, user, batch, now, c);
      }
    case ReapAt(now) => ReleaseSelected(t, StaleAt(now, c), "");
    case ReleaseWhole(batch, user, admin) =>
      OtherBatchSpares(t, BatchList(t, batch, user, admin), user, admin, i, batch);
    case _ =>
  }

  lemma OtherBatchSpares(t: Tables, ids: seq<Dev>, user: User, admin: bool, i: nat, batch: Batch)
    requires OneActive(t.rows) && i < |t.rows| && batch != t.rows[i].batch && batch != MINE
    requires ids == BatchList(t, batch, user, admin)
    ensures |ReleaseEach(t, ids, user, admin).rows| == |t.rows|
    ensures ReleaseEach(t, ids, user, admin).rows[i] == t.rows[i]
  {
    forall j | 0 <= j < |t.rows| && !t.rows[j].released && t.rows[j].batch == batch
      ensures !t.rows[i].released ==> t.rows[j].dev != t.rows[i].dev
    {}
    NotListedSpared(t, ids, user, admin, i);
  }

  lemma {:induction false} NotListedSpared(t: Tables, ids: seq<Dev>, user: User, admin: bool, i: nat)
    requires i < |t.rows| && (t.rows[i].released || t.rows[i].dev !in ids)
    ensures |ReleaseEach(t, ids, user, admin).rows| == |t.rows|
    ensures ReleaseEach(t, ids, user, admin).rows[i] == t.rows[i]
    decreases |ids|
  {
    if ids != [] {
      NotListedSpared(OrSame(ReleaseTx(t, ids[0], user, admin), t), ids[1..], user, admin, i);
    }
  }

  /** The row a run of steps leaves behind. */
  function RowAtEnd(r: Row, steps: seq<Step>, c: Config): Row
    decreases |steps|
  {
    if steps == [] then r else RowAtEnd(RowAfter(r, steps[0], c), steps[1..], c)
  }

  lemma {:induction false} RunRow(ts: seq<Tables>, steps: seq<Step>, c: Config, i: nat)
    requires Execution(ts, steps, c) && OneActive(ts[0].rows) && i < |ts[0].rows|
    requires forall k :: 0 <= k < |steps| ==> Quiet(steps[k], ts[0].rows[i])
    ensures i < |ts[|steps|].rows| && ts[|steps|].rows[i] == RowAtEnd(ts[0].rows[i], steps, c)
    decreases |steps|
  {
    if steps != [] {
      assert ts[0 + 1] == Apply(ts[0], steps[0], c);
      StepRow(ts[0], steps[0], c, i);
      OneActiveAlways(ts[0], steps[0], c);
      RunRow(ts[1..], steps[1..], c, i);
    }
  }

  /** The instant of the last renewal before step n. */
  function LastRenewal(r: Row, steps: seq<Step>, n: nat): Time
    requires n <= |steps|
  {
    if n == 0 then r.renewed
    else if Renews(steps[n - 1], r) then steps[n - 1].now
    else LastRenewal(r, steps, n - 1)
  }

  /** The reaper pass at step k finds the lease idle for too long or past its cap. */
  predicate TooLate(r: Row, steps: seq<Step>, k: nat, c: Config)
    requires k < |steps|
  {
    steps[k].ReapAt? &&
    (steps[k].now - LastRenewal(r, steps, k) > c.idleTimeout || steps[k].now > r.expires)
  }

  lemma {:induction false} LastRenewalShift(r: Row, steps: seq<Step>, n: nat, c: Config)
    requires 1 <= n <= |steps| && !r.released && !RowAfter(r, steps[0], c).released
    ensures LastRenewal(r, steps, n) == LastRenewal(RowAfter(r, steps[0], c), steps[1..], n - 1)
  {
    if n > 1 {
      LastRenewalShift(r, steps, n - 1, c);
      assert steps[1..][n - 2] == steps[n - 1];
    }
  }

  /** A lease ends exactly at a reaper pass that finds it idle or past its cap; nothing else of the
      run matters. */
  lemma {:induction false} LeaseEndsExactly(r: Row, steps: seq<Step>, c: Config)
    requires !r.released
    ensures RowAtEnd(r, steps, c).released <==> exists k :: 0 <= k < |steps| && TooLate(r, steps, k, c)
    decreases |steps|
  {
    if steps != [] {
      var next, rest := RowAfter(r, steps[0], c), steps[1..];
      if next.released {
        assert TooLate(r, steps, 0, c);
        ReleasedStays(next, rest, c);
      } else {
        LeaseEndsExactly(next, rest, c);
        forall k | 0 <= k < |rest|
          ensures TooLate(next, rest, k, c) <==> TooLate(r, steps, k + 1, c)
        {
          LastRenewalShift(r, steps, k + 1, c);
        }
        assert forall k :: 1 <= k < |steps| ==> (TooLate(next, rest, k - 1, c) <==> TooLate(r, steps, k, c));
      }
    }
  }

  lemma {:induction false} ReleasedStays(r: Row, steps: seq<Step>, c: Config)
    requires r.released
    ensures RowAtEnd(r, steps, c) == r
    decreases |steps|
  {
    if steps != [] {
      ReleasedStays(r, steps[1..], c);
    }
  }

  /** From `last` on, renewals come at gaps of at most idleTimeout up to `end`, on a monotone clock. */
  ghost predicate Regular(r: Row, steps: seq<Step>, last: Time, clock: Time, end: Time, c: Config)
    decreases |steps|
  {
    if steps == [] then clock <= end <= last + c.idleTimeout
    else if Renews(steps[0], r) then
      clock <= steps[0].now <= last + c.idleTimeout && Regular(r, steps[1..], steps[0].now, steps[0].now, end, c)
    else if steps[0].ReapAt? then
      clock <= steps[0].now && Regular(r, steps[1..], last, steps[0].now, end, c)
    else Regular(r, steps[1..], last, clock, end, c)
  }

  lemma {:induction false} RegularInTime(r: Row, steps: seq<Step>, last: Time, clock: Time, end: Time, c: Config)
    requires Regular(r, steps, last, clock, end, c) && c.idleTimeout >= 0
    ensures clock <= end && clock <= last + c.idleTimeout
    decreases |steps|
  {
    if steps != [] {
      var renewing := Renews(steps[0], r);
      RegularInTime(r, steps[1..], if renewing then steps[0].now else last,
                    if renewing || steps[0].ReapAt? then steps[0].now else clock, end, c);
    }
  }

  /** A holder that renews often enough keeps the device up to the hard cap. */
  lemma {:induction false} RegularHolderKeeps(r: Row, steps: seq<Step>, clock: Time, end: Time, c: Config)
    requires !r.released && c.idleTimeout >= 0 && end <= r.expires
    requires Regular(r, steps, r.renewed, clock, end, c)
    ensures !RowAtEnd(r, steps, c).released
    decreases |steps|
  {
    if steps != [] {
      var a := steps[0];
      var next := RowAfter(r, a, c);
      RegularInTime(r, steps[1..], next.renewed, if Renews(a, r) || a.ReapAt? then a.now else clock, end, c);
      SameRenewals(r, next, steps[1..], next.renewed, if Renews(a, r) || a.ReapAt? then a.now else clock, end, c);
      RegularHolderKeeps(next, steps[1..], if Renews(a, r) || a.ReapAt? then a.now else clock, end, c);
    }
  }

  lemma {:induction false} SameRenewals(r: Row, s: Row, steps: seq<Step>, last: Time, clock: Time, end: Time, c: Config)
    requires r.dev == s.dev && r.user == s.user && r.batch == s.batch
    requires Regular(r, steps, last, clock, end, c)
    ensures Regular(s, steps, last, clock, end, c)
    decreases |steps|
  {
    if steps != [] {
      var a := steps[0];
      SameRenewals(r, s, steps[1..], if Renews(a, r) then a.now else last,
                   if Renews(a, r) || a.ReapAt? then a.now else clock, end, c);
    }
  }

  /** No heartbeat pattern outlives the first reaper pass after the cap. */
  lemma CapIsHard(r: Row, steps: seq<Step>, k: nat, c: Config)
    requires k < |steps| && steps[k].ReapAt? && steps[k].now > r.expires
    ensures RowAtEnd(r, steps, c).released
  {
    if r.released {
      ReleasedStays(r, steps, c);
    } else {
      LeaseEndsExactly(r, steps, c);
      assert TooLate(r, steps, k, c);
    }
  }

  // ----- the cap counts from the booking -----

  /** Every reservation runs out maxLease after it was made. */
  ghost predicate Capped(rows: seq<Row>, c: Config) {
    forall i :: 0 <= i < |rows| ==> rows[i].expires == rows[i].created + c.maxLease
  }

  lemma StepCapped(t: Tables, a: Step, c: Config)
    requires Capped(t.rows, c)
    ensures Capped(Apply(t, a, c).rows, c)
  {
    StepGrows(t, a, c);
    var rows' := Apply(t, a, c).rows;
    assert forall i :: 0 <= i < |t.rows| ==> rows'[i].expires == t.rows[i].expires && rows'[i].created == t.rows[i].created;
    NewRowsCapped(t, a, c);
    hide Apply, Grows;
  }

  lemma NewRowsCapped(t: Tables, a: Step, c: Config)
    ensures var rows' := Apply(t, a, c).rows;
      forall i :: |t.rows| <= i < |rows'| ==> rows'[i].expires == rows'[i].created + c.maxLease
  {
    match a
    case BookMany(ids, user, batch, now) =>
      if BookAll(t, ids, user, batch, now, c).Some? {
        BookAllAdds(t, ids, user, batch, now, c);
      }
    case ReleaseWhole(batch, user, admin) => ReleaseEachGrows(t, BatchList(t, batch, user, admin), user, admin);
    case ReapAt(now) => ReleaseEachGrows(t, DevsWhere(t.rows, StaleAt(now, c)), "", true);
    case _ =>
  }

  lemma {:induction false} RunCapped(ts: seq<Tables>, steps: seq<Step>, c: Config, n: nat)
    requires Execution(ts, steps, c) && Capped(ts[0].rows, c) && OneActive(ts[0].rows) && n < |ts|
    ensures Capped(ts[n].rows, c) && OneActive(ts[n].rows)
  {
    if n > 0 {
      var k := n - 1;
      RunCapped(ts, steps, c, k);
      StepCapped(ts[k], steps[k], c);
      OneActiveAlways(ts[k], steps[k], c);
      assert ts[k + 1] == Apply(ts[k], steps[k], c);
      hide Apply;
    }
  }

  /** A device booked at `now` whose holder renews often enough is still that user's at `end`, at any
      time up to `now` plus the maximal lease. */
  lemma BookedDeviceIsKept(t: Tables, d: Dev, user: User, batch: Batch, now: Time, c: Config,
                           ts: seq<Tables>, steps: seq<Step>, end: Time)
    requires OneActive(t.rows) && Book(t, d, user, batch, now, c).Some? && c.idleTimeout >= 0
    requires Execution(ts, steps, c) && ts[0] == Book(t, d, user, batch, now, c).value
    requires var i := |t.rows|;
      && (forall k :: 0 <= k < |steps| ==> Quiet(steps[k], ts[0].rows[i]))
      && Regular(ts[0].rows[i], steps, now, now, end, c) && end <= now + c.maxLease
    ensures var i, rows := |t.rows|, ts[|steps|].rows;
      i < |rows| && ActiveOn(rows[i], d) && rows[i].user == user
  {
    var i := |t.rows|;
    var r := ts[0].rows[i];
    OneActiveAlways(t, BookOne(d, user, batch, now), c);
    assert r.renewed == now && r.expires == now + c.maxLease && !r.released && r.dev == d && r.user == user;
    hide OneActive, Apply, Book;
    RunRow(ts, steps, c, i);
    RegularHolderKeeps(r, steps, now, end, c);
    SameHolder(r, steps, c);
  }

  lemma {:induction false} SameHolder(r: Row, steps: seq<Step>, c: Config)
    ensures RowAtEnd(r, steps, c).dev == r.dev && RowAtEnd(r, steps, c).user == r.user
    decreases |steps|
  {
    if steps != [] { SameHolder(RowAfter(r, steps[0], c), steps[1..], c); }
  }

  /** Whatever holders do, a reservation has ended with the first reaper pass that comes more than
      the maximal lease after it was made. */
  lemma NoLeaseOutlivesTheCap(ts: seq<Tables>, steps: seq<Step>, c: Config, k: nat, n: nat, i: nat)
    requires Execution(ts, steps, c) && Capped(ts[0].rows, c) && OneActive(ts[0].rows)
    requires k < n < |ts| && steps[k].ReapAt? && i < |ts[k].rows|
    requires steps[k].now > ts[k].rows[i].created + c.maxLease
    ensures i < |ts[n].rows| && ts[n].rows[i].released
  {
    RunCapped(ts, steps, c, k);
    ReleaseSelected(ts[k], StaleAt(steps[k].now, c), "");
    assert ts[k + 1] == Apply(ts[k], steps[k], c);
    assert Stale(ts[k].rows[i], steps[k].now, c) || ts[k].rows[i].released;
    assert ts[k + 1].rows[i].released;
    hide Apply, OneActive, Capped, ReleaseEach;
    EndedForGood(ts, steps, c, k + 1, n, i);
  }

  lemma {:induction false} EndedForGood(ts: seq<Tables>, steps: seq<Step>, c: Config, k: nat, n: nat, i: nat)
    requires Execution(ts, steps, c) && k <= n < |ts| && i < |ts[k].rows| && ts[k].rows[i].released
    ensures i < |ts[n].rows| && ts[n].rows[i].released
    decreases n - k
  {
    if k < n {
      var m := n - 1;
      EndedForGood(ts, steps, c, k, m, i);
      StepGrows(ts[m], steps[m], c);
      assert ts[m + 1] == Apply(ts[m], steps[m], c);
      hide Apply;
    }
  }
}
