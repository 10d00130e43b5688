/** The farm with its poller: bookings, releases, reaps, heartbeats, guarded status writes and polls,
    each one step, with the poller's memory carried along. */
module FarmPolls {
  import opened Basics
  import opened Window
  import opened Farm
  import opened Reservations
  import Safety = ReservationSafety
  import opened Poller
  import opened Outages

  datatype World = World(tables: Tables, watches: map<Dev, Watch>)

  /** PollDevice: what one poll sees of a device; it reads and writes the tables in one step. */
  datatype Step =
    | Table(a: Safety.Step)
    | PollDevice(d: Dev, at: Time, online: bool, authorized: bool)

  function WatchOf(w: World, d: Dev): Watch { if d in w.watches then w.watches[d] else UNSEEN }

  /** The poll as the manager sees it, with the stored status and the hold of that moment. */
  function Seen(w: World, a: Step): Poll
    requires a.PollDevice? && a.d in w.tables.devices
  {
    Poll(a.at, a.online, a.authorized, w.tables.devices[a.d].status, HasActive(w.tables.rows, a.d))
  }

  function Apply(w: World, a: Step, c: Config): World {
    match a
    case Table(b) => w.(tables := Safety.Apply(w.tables, b, c))
    case PollDevice(d, _, _, _) =>
      if d !in w.tables.devices then w
      else
        var p := Seen(w, a);
        World(Safety.Apply(w.tables, Safety.WriteStatus(d, Next(WatchOf(w, d), p)), c),
              w.watches[d := After1(WatchOf(w, d), p)])
  }

  ghost predicate Execution(ws: seq<World>, steps: seq<Step>, c: Config) {
    && |ws| == |steps| + 1
    && forall i :: 0 <= i < |steps| ==> ws[i + 1] == Apply(ws[i], steps[i], c)
  }

  /** Every status somebody other than the poller writes is backed by a hold if it is a held one. */
  ghost predicate Guarded(ws: seq<World>, steps: seq<Step>, n: nat) {
    forall i :: 0 <= i < n && i < |steps| && i < |ws| && steps[i].Table? ==> Safety.Backed(ws[i].tables, steps[i].a)
  }

  ghost predicate GoodUpTo(ws: seq<World>, n: nat) {
    forall i :: 0 <= i <= n && i < |ws| ==> Safety.Good(ws[i].tables)
  }

  lemma StepGood(w: World, a: Step, c: Config)
    requires Safety.Good(w.tables)
    ensures Safety.Good(Apply(w, a, c).tables) <==> (a.Table? ==> Safety.Backed(w.tables, a.a))
  {
    hide Safety.Good, Safety.Backed, Next, Safety.Apply;
    match a
    case Table(b) => Safety.StepGood(w.tables, b, c);
    case PollDevice(d, _, _, _) =>
      if d in w.tables.devices {
        var p := Seen(w, a);
        AtomicPollIsBacked(w.tables, d, WatchOf(w, d), p);
        Safety.StepGood(w.tables, Safety.WriteStatus(d, Next(WatchOf(w, d), p)), c);
      }
  }

  /** Polls included: at most one hold per device and no device stuck as held, in every state of a
      run, exactly when every status written by others was backed by a hold. */
  lemma {:induction false} PolledFarmGood(ws: seq<World>, steps: seq<Step>, c: Config, n: nat)
    requires Execution(ws, steps, c) && n <= |steps| && Safety.Good(ws[0].tables)
    ensures GoodUpTo(ws, n) <==> Guarded(ws, steps, n)
  {
    hide Safety.Good, Safety.Backed, Apply;
    if n > 0 {
      var k := n - 1;
      PolledFarmGood(ws, steps, c, k);
      assert GoodUpTo(ws, n) <==> GoodUpTo(ws, k) && Safety.Good(ws[n].tables);
      assert Guarded(ws, steps, n) <==>
        Guarded(ws, steps, k) && (steps[k].Table? ==> Safety.Backed(ws[k].tables, steps[k].a));
      if GoodUpTo(ws, k) {
        assert Safety.Good(ws[k].tables);
        StepGood(ws[k], steps[k], c);
      }
    }
  }

  // ----- the poller's memory in a run -----

  /** The polls of one device in the first n steps. */
  function PollsOf(ws: seq<World>, steps: seq<Step>, n: nat, d: Dev): seq<Poll>
    requires n <= |steps| && n < |ws|
  {
    if n == 0 then []
    else
      var front, w, a := PollsOf(ws, steps, n - 1, d), ws[n - 1], steps[n - 1];
      if a.PollDevice? && a.d == d && d in w.tables.devices then front + [Seen(w, a)] else front
  }

  /** What the manager remembers of a device is what its own polls amount to, whatever else happens. */
  lemma {:induction false} WatchFollowsPolls(ws: seq<World>, steps: seq<Step>, c: Config, n: nat, d: Dev)
    requires Execution(ws, steps, c) && n <= |steps| && ws[0].watches == map[]
    ensures WatchOf(ws[n], d) == WatchAfter(PollsOf(ws, steps, n, d))
  {
    hide Safety.Apply, Next, After1;
    if n > 0 {
      WatchFollowsPolls(ws, steps, c, n - 1, d);
      var w, a := ws[n - 1], steps[n - 1];
      assert ws[n] == Apply(w, a, c);
      if a.PollDevice? && a.d == d && d in w.tables.devices {
        WatchSnoc(PollsOf(ws, steps, n - 1, d), Seen(w, a));
      }
    }
  }

  /** In a run of the whole farm, a poll takes a held device offline exactly when it is offline, not
      flapping, and more than the grace period after a missed poll of the device that no healthy
      one followed. */
  lemma PollDemotesIff(ws: seq<World>, steps: seq<Step>, c: Config, n: nat)
    requires Execution(ws, steps, c) && n < |steps| && ws[0].watches == map[]
    requires steps[n].PollDevice? && steps[n].d in ws[n].tables.devices
    requires HeldStatus(ws[n].tables.devices[steps[n].d].status)
    requires Monotone(PollsOf(ws, steps, n, steps[n].d))
    ensures var d, history := steps[n].d, PollsOf(ws, steps, n, steps[n].d);
      && d in ws[n + 1].tables.devices
      && (ws[n + 1].tables.devices[d].status == Offline <==>
            && !steps[n].online && !Flapping(WatchAfter(history), false, steps[n].at)
            && exists k: nat :: Unhealed(history, k) && steps[n].at - history[k].at > HELD_GRACE)
  {
    hide WatchAfter, Flapping, Monotone, Unhealed, Next;
    var d := steps[n].d;
    var history := PollsOf(ws, steps, n, d);
    WatchFollowsPolls(ws, steps, c, n, d);
    DemotedIffMissed(history, Seen(ws[n], steps[n]));
    UnhealedInside(history);
    assert ws[n + 1] == Apply(ws[n], steps[n], c);
  }

  // ----- what a poll answers -----

  /** With this poll, the device's history has at least three connectivity changes in the last minute. */
  predicate FlapsAt(history: seq<Poll>, p: Poll) {
    |After(Changes(history + [p]), p.at - 60 * SECOND)| >= 3
  }

  /** A poll answers from the status s, what it sees and whether somebody holds the device. */
  predicate Answers(s: Status, p: Poll, flaps: bool, gone: bool, s': Status) {
    var usable, idle := p.online && p.authorized, s in {Offline, Unauthorized, Free};
    && (s' == Degraded <==> flaps || (s == Degraded && !usable))
    && (s' == Maintenance <==> !flaps && s == Maintenance)
    && (s' == Free <==> !flaps && usable && (s == Degraded || (idle && !p.held)))
    && (s' == Unauthorized <==> !flaps && idle && p.online && !p.authorized)
    && (s' == Offline <==> !flaps && !p.online && (idle || (HeldStatus(s) && gone)))
    && (s' == Reserved <==> !flaps && ((s == Reserved && (p.online || !gone)) || (idle && usable && p.held)))
    && (s' == Busy <==> !flaps && s == Busy && (p.online || !gone))
    && (s' == RunningTest <==> !flaps && s == RunningTest && (p.online || !gone))
  }

  lemma NextAnswers(w: Watch, p: Poll)
    ensures Answers(p.status, p, Flapping(w, p.online, p.at), GoneTooLong(w.since, p.at), Next(w, p))
  {
    hide Flapping, GoneTooLong;
  }

  lemma GoneIffMissed(history: seq<Poll>, at: Time)
    requires Monotone(history)
    ensures GoneTooLong(WatchAfter(history).since, at) <==>
      exists k: nat :: Unhealed(history, k) && at - history[k].at > 90 * SECOND
  {
    SinceIsOldestMiss(history);
    UnhealedInside(history);
    hide WatchAfter, Unhealed, Monotone;
  }

  /** In a run of the whole farm: what a poll leaves each device as, by the device's status before,
      what the poll sees, and the device's poll history; nothing else changes. */
  lemma PollAnswers(ws: seq<World>, steps: seq<Step>, c: Config, n: nat)
    requires Execution(ws, steps, c) && n < |steps| && ws[0].watches == map[]
    requires steps[n].PollDevice? && steps[n].d in ws[n].tables.devices
    requires Monotone(PollsOf(ws, steps, n, steps[n].d) + [Seen(ws[n], steps[n])])
    ensures var d, t, t' := steps[n].d, ws[n].tables, ws[n + 1].tables;
      var history, p := PollsOf(ws, steps, n, d), Poll(steps[n].at, steps[n].online, steps[n].authorized, t.devices[d].status, HasActive(t.rows, d));
      && t'.rows == t.rows && t'.devices.Keys == t.devices.Keys
      && (forall e :: e in t.devices && e != d ==> t'.devices[e] == t.devices[e])
      && t'.devices[d].adopted == t.devices[d].adopted
      && Answers(t.devices[d].status, p, FlapsAt(history, p),
                 exists k: nat :: Unhealed(history, k) && p.at - history[k].at > 90 * SECOND,
                 t'.devices[d].status)
  {
    var d := steps[n].d;
    var history, p := PollsOf(ws, steps, n, d), Seen(ws[n], steps[n]);
    var w := WatchOf(ws[n], d);
    WatchFollowsPolls(ws, steps, c, n, d);
    FlapIsHistory(history, p);
    MonotonePrefix(history, [p]);
    GoneIffMissed(history, p.at);
    NextAnswers(w, p);
    assert ws[n + 1] == Apply(ws[n], steps[n], c);
    hide WatchAfter, Flapping, Monotone, Next, Answers, GoneTooLong, FlapsAt, Unhealed;
  }

  lemma FlapIsHistory(history: seq<Poll>, p: Poll)
    requires Monotone(history + [p])
    ensures Flapping(WatchAfter(history), p.online, p.at) <==> FlapsAt(history, p)
  {
    hide WatchAfter, Flapping, Changes, After, Monotone;
    var all := history + [p];
    assert all[..|history|] == history && all[|history|] == p;
    FlappingIffHistory(all);
  }
}
