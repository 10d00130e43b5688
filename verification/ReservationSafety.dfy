/** What every mix of booking, releasing, reaping, heartbeats and status writes keeps. */
module ReservationSafety {
  import opened Basics
  import opened Farm
  import opened Reservations

  /** One transaction, one batch release, one reaper pass or one status write. A booking is its
      write transaction alone: the availability check before it may be outdated. */
  datatype Step =
    | BookOne(d: Dev, user: User, batch: Batch, now: Time)
    | BookMany(ids: seq<Dev>, user: User, batch: Batch, now: Time)
    | ReleaseOne(d: Dev, user: User, admin: bool)
    | ReleaseWhole(batch: Batch, user: User, admin: bool)
    | ReapAt(now: Time)
    | BeatAt(beat: Beat, user: User, now: Time)
    | WriteStatus(d: Dev, status: Status)

  function OrSame(r: Option<Tables>, t: Tables): Tables { if r.Some? then r.value else t }

  function BatchList(t: Tables, batch: Batch, user: User, admin: bool): seq<Dev> {
    var mine := DevsWhere(t.rows, OwnBatch(batch, user));
    if mine == [] && admin then DevsWhere(t.rows, WholeBatch(batch)) else mine
  }

  function Apply(t: Tables, a: Step, c: Config): Tables {
    match a
    case BookOne(d, user, batch, now) => OrSame(Book(t, d, user, batch, now, c), t)
    case BookMany(ids, user, batch, now) => OrSame(BookAll(t, ids, user, batch, now, c), t)
    case ReleaseOne(d, user, admin) => OrSame(ReleaseTx(t, d, user, admin), t)
    case ReleaseWhole(batch, user, admin) => ReleaseEach(t, BatchList(t, batch, user, admin), user, admin)
    case ReapAt(now) => Reap(t, now, c)
    case BeatAt(beat, user, now) => t.(rows := Renew(t.rows, beat, user, now))
    case WriteStatus(d, s) => t.(devices := WithStatus(t.devices, d, s))
  }

  /** What a release of a whole batch ends: the caller's active rows of the batch, or, forced and with
      none of these, every active row of the batch. */
  lemma BatchReleaseEnds(t: Tables, batch: Batch, user: User, admin: bool, c: Config)
    requires OneActive(t.rows)
    ensures var t' := Apply(t, ReleaseWhole(batch, user, admin), c);
      var owns := exists i :: 0 <= i < |t.rows| && InBatch(t.rows[i], batch, user);
      && |t'.rows| == |t.rows|
      && forall i :: 0 <= i < |t.rows| ==>
           t'.rows[i] ==
             if (if owns || !admin then t.rows[i].user == user && (batch == MINE || t.rows[i].batch == batch)
                 else t.rows[i].batch == batch)
             then t.rows[i].(released := true) else t.rows[i]
  {
    var own, whole := OwnBatch(batch, user), WholeBatch(batch);
    var mine := DevsWhere(t.rows, own);
    assert mine != [] ==> mine[0] in mine;
    assert (exists i :: 0 <= i < |t.rows| && Selects(own, t.rows[i])) <==> mine != [] by {
      if i :| 0 <= i < |t.rows| && Selects(own, t.rows[i]) { assert t.rows[i].dev in mine; }
    }
    ReleaseSelected(t, own, user);
    ReleaseSelected(t, whole, user);
    ReleaseOwnBatch(t, batch, user);
    hide ReleaseEach, DevsWhere, OneActive;
  }

  ghost predicate Execution(ts: seq<Tables>, steps: seq<Step>, c: Config) {
    && |ts| == |steps| + 1
    && forall i :: 0 <= i < |steps| ==> ts[i + 1] == Apply(ts[i], steps[i], c)
  }

  // ----- one holder per device, and no device held by nobody -----

  ghost predicate Good(t: Tables) { OneActive(t.rows) && HeldHasHold(t) }

  lemma BookGood(t: Tables, d: Dev, user: User, batch: Batch, now: Time, c: Config)
    requires Good(t) && Book(t, d, user, batch, now, c).Some?
    ensures Good(Book(t, d, user, batch, now, c).value)
  {
    var r := NewRow(d, user, batch, now, c);
    var t' := Book(t, d, user, batch, now, c).value;
    forall e
      ensures HasActive(t'.rows, e) <==> HasActive(t.rows, e) || e == d
    {
      HasActiveAfter(t.rows, r, e);
    }
    assert forall i :: 0 <= i < |t.rows| ==> !ActiveOn(t.rows[i], d);
  }

  lemma {:induction false} BookAllGood(t: Tables, ids: seq<Dev>, user: User, batch: Batch, now: Time, c: Config)
    requires Good(t)
    ensures Good(OrSame(BookAll(t, ids, user, batch, now, c), t))
    decreases |ids|
  {
    if ids != [] && Book(t, ids[0], user, batch, now, c).Some? {
      BookGood(t, ids[0], user, batch, now, c);
      BookAllGood(Book(t, ids[0], user, batch, now, c).value, ids[1..], user, batch, now, c);
    }
  }

  lemma ReleaseGood(t: Tables, d: Dev, user: User, admin: bool)
    requires Good(t)
    ensures Good(OrSame(ReleaseTx(t, d, user, admin), t))
  {
    var t' := OrSame(ReleaseTx(t, d, user, admin), t);
    forall e | e in t'.devices && HeldStatus(t'.devices[e].status)
      ensures HasActive(t'.rows, e)
    {
      var i :| 0 <= i < |t.rows| && ActiveOn(t.rows[i], e);
      assert t' == t || e != d;
      assert ActiveOn(t'.rows[i], e);
    }
  }

  lemma {:induction false} ReleaseEachGood(t: Tables, ids: seq<Dev>, user: User, admin: bool)
    requires Good(t)
    ensures Good(ReleaseEach(t, ids, user, admin))
    decreases |ids|
  {
    if ids != [] {
      ReleaseGood(t, ids[0], user, admin);
      ReleaseEachGood(OrSame(ReleaseTx(t, ids[0], user, admin), t), ids[1..], user, admin);
    }
  }

  lemma RenewGood(t: Tables, beat: Beat, user: User, now: Time)
    requires Good(t)
    ensures Good(t.(rows := Renew(t.rows, beat, user, now)))
  {
    var rows' := Renew(t.rows, beat, user, now);
    forall d | HasActive(t.rows, d)
      ensures HasActive(rows', d)
    {
      var i :| 0 <= i < |t.rows| && ActiveOn(t.rows[i], d);
      assert ActiveOn(rows'[i], d);
    }
  }

  /** A status write is backed when it does not mark a device as held that nobody holds. */
  predicate Backed(t: Tables, a: Step) {
    a.WriteStatus? && a.d in t.devices && HeldStatus(a.status) ==> HasActive(t.rows, a.d)
  }

  /** One step keeps both invariants exactly when it is backed. */
  lemma StepGood(t: Tables, a: Step, c: Config)
    requires Good(t)
    ensures Good(Apply(t, a, c)) <==> Backed(t, a)
  {
    match a
    case BookOne(d, user, batch, now) =>
      if Book(t, d, user, batch, now, c).Some? { BookGood(t, d, user, batch, now, c); }
    case BookMany(ids, user, batch, now) => BookAllGood(t, ids, user, batch, now, c);
    case ReleaseOne(d, user, admin) => ReleaseGood(t, d, user, admin);
    case ReleaseWhole(batch, user, admin) => ReleaseEachGood(t, BatchList(t, batch, user, admin), user, admin);
    case ReapAt(now) => ReleaseEachGood(t, DevsWhere(t.rows, StaleAt(now, c)), "", true);
    case BeatAt(beat, user, now) => RenewGood(t, beat, user, now);
    case WriteStatus(d, s) => StatusGood(t, d, s);
  }

  lemma StatusGood(t: Tables, d: Dev, s: Status)
    requires Good(t)
    ensures Good(t.(devices := WithStatus(t.devices, d, s))) <==>
      (d in t.devices && HeldStatus(s) ==> HasActive(t.rows, d))
  {
    var t' := t.(devices := WithStatus(t.devices, d, s));
    assert d in t.devices ==> t'.devices[d].status == s;
  }

  ghost predicate GoodUpTo(ts: seq<Tables>, n: nat) {
    forall i :: 0 <= i <= n < |ts| ==> Good(ts[i])
  }

  ghost predicate BackedUpTo(ts: seq<Tables>, steps: seq<Step>, n: nat) {
    forall i :: 0 <= i < n && i < |ts| && i < |steps| ==> Backed(ts[i], steps[i])
  }

  /** Over any run: at most one unreleased reservation per device and no device stuck as held in
      any state, if and only if every status write was backed by a hold. */
  lemma {:induction false} RunGood(ts: seq<Tables>, steps: seq<Step>, c: Config, n: nat)
    requires Execution(ts, steps, c) && Good(ts[0]) && n <= |steps|
    ensures GoodUpTo(ts, n) <==> BackedUpTo(ts, steps, n)
  {
    if n > 0 {
      var k := n - 1;
      RunGood(ts, steps, c, k);
      hide Good, Backed, Apply;
      assert ts[k + 1] == Apply(ts[k], steps[k], c);
      assert GoodUpTo(ts, n) <==> GoodUpTo(ts, k) && Good(ts[n]);
      assert BackedUpTo(ts, steps, n) <==> BackedUpTo(ts, steps, k) && Backed(ts[k], steps[k]);
      if Good(ts[k]) {
        StepGood(ts[k], steps[k], c);
      }
    }
  }

  /** The index alone holds in every run, backed or not: statuses play no part in it. */
  lemma {:induction false} OneActiveAlways(t: Tables, a: Step, c: Config)
    requires OneActive(t.rows)
    ensures OneActive(Apply(t, a, c).rows)
  {
    var bare := Tables(map[], t.rows);
    assert Good(bare);
    StepGood(bare, a, c);
    StatusesDoNotMatter(t, bare, a, c);
  }

  lemma StatusesDoNotMatter(t: Tables, u: Tables, a: Step, c: Config)
    requires t.rows == u.rows
    ensures Apply(t, a, c).rows == Apply(u, a, c).rows
  {
    match a
    case BookMany(ids, user, batch, now) => SameBookings(t, u, ids, user, batch, now, c);
    case ReleaseWhole(batch, user, admin) => SameReleases(t, u, BatchList(t, batch, user, admin), user, admin);
    case ReapAt(now) => SameReleases(t, u, DevsWhere(t.rows, StaleAt(now, c)), "", true);
    case _ =>
  }

  lemma {:induction false} SameBookings(t: Tables, u: Tables, ids: seq<Dev>, user: User, batch: Batch, now: Time, c: Config)
    requires t.rows == u.rows
    ensures OrSame(BookAll(t, ids, user, batch, now, c), t).rows == OrSame(BookAll(u, ids, user, batch, now, c), u).rows
    ensures BookAll(t, ids, user, batch, now, c).Some? <==> BookAll(u, ids, user, batch, now, c).Some?
    decreases |ids|
  {
    if ids != [] && !HasActive(t.rows, ids[0]) {
      SameBookings(Book(t, ids[0], user, batch, now, c).value, Book(u, ids[0], user, batch, now, c).value,
                   ids[1..], user, batch, now, c);
    }
  }

  lemma {:induction false} SameReleases(t: Tables, u: Tables, ids: seq<Dev>, user: User, admin: bool)
    requires t.rows == u.rows
    ensures ReleaseEach(t, ids, user, admin).rows == ReleaseEach(u, ids, user, admin).rows
    decreases |ids|
  {
    if ids != [] {
      SameReleases(OrSame(ReleaseTx(t, ids[0], user, admin), t), OrSame(ReleaseTx(u, ids[0], user, admin), u),
                   ids[1..], user, admin);
    }
  }

  /** A device marked held that nobody holds stays so: it cannot be booked, nobody can release it,
      and the reaper does not touch it. */
  lemma StuckDevice(t: Tables, d: Dev, user: User, admin: bool, now: Time, c: Config)
    requires d in t.devices && HeldStatus(t.devices[d].status) && !HasActive(t.rows, d)
    ensures !Bookable(t, d)
    ensures ReleaseTx(t, d, user, admin) == None
    ensures d in Reap(t, now, c).devices && Reap(t, now, c).devices[d] == t.devices[d]
  {
    var ids := DevsWhere(t.rows, StaleAt(now, c));
    forall i | 0 <= i < |t.rows|
      ensures !ActiveOn(t.rows[i], d)
    {}
    assert d !in ids;
    ReleaseEachDevices(t, ids, "", true, d);
  }

  lemma {:induction false} ReleaseEachDevices(t: Tables, ids: seq<Dev>, user: User, admin: bool, d: Dev)
    requires d in t.devices && d !in ids
    ensures d in ReleaseEach(t, ids, user, admin).devices && ReleaseEach(t, ids, user, admin).devices[d] == t.devices[d]
    decreases |ids|
  {
    if ids != [] {
      assert d != ids[0];
      ReleaseEachDevices(OrSame(ReleaseTx(t, ids[0], user, admin), t), ids[1..], user, admin, d);
    }
  }
}
