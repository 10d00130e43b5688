/** Connectivity reconciliation: flap detection, the grace period of held devices, next status. */
module Poller {
  import opened Basics
  import opened Farm
  import opened Window
  import opened Reservations
  import opened ReservationSafety

  const FLAP_WINDOW: Time := 60 * SECOND
  const FLAPS: nat := 3
  const HELD_GRACE: Time := 90 * SECOND

  /** One poll of one device: what was seen, the stored status it was read with, and whether an
      active reservation exists. */
  datatype Poll = Poll(at: Time, online: bool, authorized: bool, status: Status, held: bool)

  datatype Flap = Flap(changes: seq<Time>, online: bool)

  /** What the manager remembers about one device. */
  datatype Watch = Watch(flap: Option<Flap>, since: Option<Time>)

  const UNSEEN := Watch(None, None)

  // ----- one poll -----

  function NextFlap(f: Option<Flap>, online: bool, at: Time): Flap {
    var was := if f.Some? then f.value else Flap([], online);
    var news := if was.online != online then [at] else [];
    Flap(After(was.changes + news, at - FLAP_WINDOW), online)
  }

  predicate Flapping(w: Watch, online: bool, at: Time) { |NextFlap(w.flap, online, at).changes| >= FLAPS }

  /** A held device is missing and has been for longer than the grace period. */
  predicate GoneTooLong(since: Option<Time>, now: Time) {
    since.Some? && now - since.value > HELD_GRACE
  }

  function Next(w: Watch, p: Poll): Status {
    if Flapping(w, p.online, p.at) then Degraded
    else
      match p.status
      case Maintenance => Maintenance
      case Reserved | Busy | RunningTest =>
        if !p.online && GoneTooLong(w.since, p.at) then Offline else p.status
      case Degraded => if p.online && p.authorized then Free else Degraded
      case _ =>
        if p.online && p.authorized then (if p.held then Reserved else Free)
        else if p.online then Unauthorized
        else Offline
  }

  function NextSince(w: Watch, p: Poll): Option<Time> {
    if Flapping(w, p.online, p.at) || !HeldStatus(p.status) then w.since
    else if p.online then None
    else if w.since.Some? then w.since
    else Some(p.at)
  }

  function After1(w: Watch, p: Poll): Watch { Watch(Some(NextFlap(w.flap, p.online, p.at)), NextSince(w, p)) }

  function WatchAfter(polls: seq<Poll>): Watch {
    if polls == [] then UNSEEN else After1(WatchAfter(polls[..|polls| - 1]), polls[|polls| - 1])
  }

  ghost predicate Monotone(polls: seq<Poll>) {
    forall i, j :: 0 <= i < j < |polls| ==> polls[i].at <= polls[j].at
  }

  // ----- flap detection answers as the full history would -----

  /** The instants at which connectivity changed, over the whole history. */
  function Changes(polls: seq<Poll>): seq<Time> {
    if |polls| <= 1 then []
    else
      var n := |polls| - 1;
      Changes(polls[..n]) + if polls[n].online != polls[n - 1].online then [polls[n].at] else []
  }

  lemma {:induction false} FlapIsRecentHistory(polls: seq<Poll>)
    requires polls != [] && Monotone(polls)
    ensures var last := polls[|polls| - 1];
      WatchAfter(polls).flap == Some(Flap(After(Changes(polls), last.at - FLAP_WINDOW), last.online))
    decreases |polls|
  {
    var n := |polls| - 1;
    if n > 0 {
      assert polls[n - 1].at <= polls[n].at;
      hide After, Changes, WatchAfter;
      FlapIsRecentHistory(polls[..n]);
      FlapStep(polls);
    } else {
      FirstFlap(polls);
    }
  }

  lemma FirstFlap(polls: seq<Poll>)
    requires |polls| == 1
    ensures WatchAfter(polls).flap == Some(Flap(After(Changes(polls), polls[0].at - FLAP_WINDOW), polls[0].online))
  {
    assert polls[..0] == [];
    hide NextSince;
  }

  lemma FlapStep(polls: seq<Poll>)
    requires |polls| > 1 && polls[|polls| - 2].at <= polls[|polls| - 1].at
    requires var before := polls[|polls| - 2];
      WatchAfter(polls[..|polls| - 1]).flap ==
        Some(Flap(After(Changes(polls[..|polls| - 1]), before.at - FLAP_WINDOW), before.online))
    ensures var last := polls[|polls| - 1];
      WatchAfter(polls).flap == Some(Flap(After(Changes(polls), last.at - FLAP_WINDOW), last.online))
  {
    hide After, NextSince, NextFlap;
    var n := |polls| - 1;
    var last := polls[n];
    NextFlapAdds(Changes(polls[..n]), polls[n - 1].online, polls[n - 1].at, last.online, last.at);
    assert WatchAfter(polls).flap == Some(NextFlap(WatchAfter(polls[..n]).flap, last.online, last.at));
  }

  lemma NextFlapAdds(changes: seq<Time>, was: bool, before: Time, online: bool, at: Time)
    requires before <= at
    ensures NextFlap(Some(Flap(After(changes, before - FLAP_WINDOW), was)), online, at) ==
      Flap(After(changes + (if online != was then [at] else []), at - FLAP_WINDOW), online)
  {
    hide After;
    AddAfter(changes, if online != was then [at] else [], before - FLAP_WINDOW, at - FLAP_WINDOW);
  }

  /** A poll is judged flapping exactly when the full history has FLAPS changes in the window. */
  lemma FlappingIffHistory(polls: seq<Poll>)
    requires polls != [] && Monotone(polls)
    ensures var n := |polls| - 1;
      Flapping(WatchAfter(polls[..n]), polls[n].online, polls[n].at) <==>
      |After(Changes(polls), polls[n].at - FLAP_WINDOW)| >= FLAPS
  {
    FlapIsRecentHistory(polls);
    hide Changes, After, Monotone, NextFlap, NextSince;
  }

  // ----- the poll against the reservation tables -----

  /** A poll whose reads and write are one step never marks a device as held that nobody holds. */
  lemma AtomicPollIsBacked(t: Tables, d: Dev, w: Watch, p: Poll)
    requires Good(t) && d in t.devices
    requires p.status == t.devices[d].status && p.held == HasActive(t.rows, d)
    ensures Backed(t, WriteStatus(d, Next(w, p)))
  {
    NextHeldWasHeld(w, p);
    assert HeldStatus(t.devices[d].status) ==> HasActive(t.rows, d);
    hide Next, HasActive, OneActive;
  }

  /** The poller writes a held status only over a held one, or when it sees a hold. */
  lemma NextHeldWasHeld(w: Watch, p: Poll)
    ensures HeldStatus(Next(w, p)) ==> HeldStatus(p.status) || p.held
  {
    hide Flapping, GoneTooLong;
  }

  /** A poll that read its row before a release writes the held status back: the device is stuck. */
  lemma StalePollSticks(d: Dev, user: User, c: Config)
    ensures var t := Tables(map[d := Device(Reserved, true)], [Row(d, user, "b", 0, 0, c.maxLease, false)]);
      var p := Poll(1, true, true, t.devices[d].status, true);
      var t1 := Apply(t, ReleaseOne(d, user, false), c);
      var t2 := Apply(t1, WriteStatus(d, Next(UNSEEN, p)), c);
      && Good(t) && Good(t1) && !Good(t2)
      && d in t2.devices && HeldStatus(t2.devices[d].status) && !HasActive(t2.rows, d)
  {
    var t := Tables(map[d := Device(Reserved, true)], [Row(d, user, "b", 0, 0, c.maxLease, false)]);
    assert ActiveOn(t.rows[0], d) && Releasable(t.rows[0], d, user, false);
    var t1 := Apply(t, ReleaseOne(d, user, false), c);
    assert t1 == Tables(map[d := Device(Free, true)], [t.rows[0].(released := true)]);
    var p := Poll(1, true, true, Reserved, true);
    assert !Flapping(UNSEEN, p.online, p.at);
    assert Next(UNSEEN, p) == Reserved;
    var t2 := Apply(t1, WriteStatus(d, Reserved), c);
    assert t2.rows == t1.rows && d in t2.devices && t2.devices[d].status == Reserved;
    hide Next;
    assert !HasActive(t2.rows, d) && !HeldHasHold(t2);
  }

  // ----- the manager -----

  class Manager {
    var flaps: map<Dev, Flap>
    var heldSince: map<Dev, Time>

    ghost function Of(d: Dev): Watch
      reads this
    {
      Watch(if d in flaps then Some(flaps[d]) else None, if d in heldSince then Some(heldSince[d]) else None)
    }

    constructor ()
      ensures forall d :: Of(d) == UNSEEN
    {
      flaps, heldSince := map[], map[];
    }

    method IsFlapping(d: Dev, online: bool, now: Time) returns (r: bool)
      modifies `flaps
      ensures r == Flapping(old(Of(d)), online, now)
      ensures flaps == old(flaps)[d := NextFlap(old(Of(d)).flap, online, now)]
    {
      var f := if d in flaps then flaps[d] else Flap([], online);
      if f.online != online {
        f := Flap(f.changes + [now], online);
      }
      assert f.changes + [] == f.changes;
      var kept := Prune(f.changes, now - FLAP_WINDOW);
      flaps := flaps[d := f.(changes := kept)];
      return |kept| >= FLAPS;
    }

    method HeldOfflineTooLong(d: Dev, now: Time) returns (r: bool)
      modifies `heldSince
      ensures r == GoneTooLong(old(Of(d)).since, now)
      ensures heldSince == if d in old(heldSince) then old(heldSince) else old(heldSince)[d := now]
    {
      if d !in heldSince {
        heldSince := heldSince[d := now];
        return false;
      }
      return now - heldSince[d] > HELD_GRACE;
    }

    method Reconcile(d: Dev, p: Poll) returns (next: Status)
      modifies this
      ensures next == Next(old(Of(d)), p)
      ensures Of(d) == After1(old(Of(d)), p)
      ensures forall e :: e != d ==> Of(e) == old(Of(e))
    {
      var flapping := IsFlapping(d, p.online, p.at);
      if flapping {
        return Degraded;
      }
      match p.status
      case Maintenance => return Maintenance;
      case Reserved | Busy | RunningTest =>
        if p.online {
          heldSince := heldSince - {d};
          return p.status;
        }
        var gone := HeldOfflineTooLong(d, p.at);
        return if gone then Offline else p.status;
      case Degraded =>
        return if p.online && p.authorized then Free else Degraded;
      case _ =>
        if p.online && p.authorized {
          return if p.held then Reserved else Free;
        }
        return if p.online then Unauthorized else Offline;
    }
  }
}
