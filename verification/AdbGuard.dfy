/** Watching the adb server: when it is restarted, how often, and when the sidecar follows. */
module AdbGuard {
  import opened Basics
  import opened Window

  const RESTART_WINDOW: Time := 30 * MINUTE
  const MAX_RESTARTS: nat := 3

  /** One watchdog tick: the probe is None when adb did not answer, else how many phones on USB it
      does not list. The clock is read for the window and again for the restart. */
  datatype Tick = Tick(servers: seq<int>, managed: bool, listening: bool, probe: Option<nat>, now: Time, later: Time)

  datatype Guard = Guard(lastPID: int, wedged: nat, unseen: nat, restarts: seq<Time>)

  const FRESH := Guard(0, 0, 0, [])

  datatype Effects = Effects(restarted: bool, sidecar: bool)

  function Probed(g: Guard, t: Tick): Guard {
    match t.probe
    case None => g.(wedged := g.wedged + 1)
    case Some(missing) => g.(wedged := 0, unseen := if missing > 0 then g.unseen + 1 else 0)
  }

  predicate WantsRestart(g: Guard, t: Tick) { |t.servers| > 1 || g.wedged >= 2 || g.unseen >= 2 }

  /** Restarts unless the server is not ours or was restarted too often lately. */
  function Restarted(g: Guard, t: Tick): (Guard, bool) {
    if !t.managed then (g, false)
    else
      var kept := After(g.restarts, t.now - RESTART_WINDOW);
      if |kept| >= MAX_RESTARTS then (g.(restarts := kept), false)
      else (g.(restarts := kept + [t.later], wedged := 0, unseen := 0), true)
  }

  function Checked(g: Guard, t: Tick): (Guard, Effects) {
    if !t.listening then (g, Effects(false, false))
    else
      var g1 := Probed(g, t);
      var (g2, restarted) := if WantsRestart(g1, t) then Restarted(g1, t) else (g1, false);
      if |t.servers| == 1 then
        (g2.(lastPID := t.servers[0]), Effects(restarted, g2.lastPID != 0 && t.servers[0] != g2.lastPID))
      else (g2, Effects(restarted, false))
  }

  // ----- over any history of ticks -----

  function GuardAfter(ticks: seq<Tick>): Guard
    decreases |ticks|
  {
    if ticks == [] then FRESH else Checked(GuardAfter(ticks[..|ticks| - 1]), ticks[|ticks| - 1]).0
  }

  /** The instants of all restarts ever done. */
  function AllRestarts(ticks: seq<Tick>): seq<Time>
    decreases |ticks|
  {
    if ticks == [] then []
    else
      var front, t := ticks[..|ticks| - 1], ticks[|ticks| - 1];
      AllRestarts(front) + if Checked(GuardAfter(front), t).1.restarted then [t.later] else []
  }

  ghost predicate Monotone(ticks: seq<Tick>) {
    && (forall i :: 0 <= i < |ticks| ==> ticks[i].now <= ticks[i].later)
    && (forall i, j :: 0 <= i < j < |ticks| ==> ticks[i].later <= ticks[j].now)
  }

  /** The pruned list is what a window over the full history would keep. */
  ghost predicate Summary(kept: seq<Time>, all: seq<Time>, cut: Time, clock: Time) {
    && Sorted(all) && kept == After(all, cut) && cut + RESTART_WINDOW <= clock
    && (all != [] ==> all[|all| - 1] <= clock)
  }

  ghost predicate Spaced(all: seq<Time>) {
    forall i, j :: 0 <= i && i + MAX_RESTARTS <= j < |all| ==> all[j] - all[i] >= RESTART_WINDOW
  }

  lemma Prune1(kept: seq<Time>, all: seq<Time>, cut: Time, clock: Time, now: Time)
    requires Summary(kept, all, cut, clock) && clock <= now
    ensures Summary(After(kept, now - RESTART_WINDOW), all, now - RESTART_WINDOW, now)
  {
    AfterAfter(all, cut, now - RESTART_WINDOW);
  }

  lemma Add1(kept: seq<Time>, all: seq<Time>, now: Time, later: Time)
    requires Summary(kept, all, now - RESTART_WINDOW, now) && now <= later
    ensures Summary(kept + [later], all + [later], now - RESTART_WINDOW, later)
  {
    AfterConcat(all, [later], now - RESTART_WINDOW);
    AfterOne(later, now - RESTART_WINDOW);
    assert forall i :: 0 <= i < |all| ==> all[i] <= all[|all| - 1];
  }

  /** With room in the window, the third restart before this one is out of it. */
  lemma RoomMeansSpaced(kept: seq<Time>, all: seq<Time>, now: Time, later: Time)
    requires Summary(kept, all, now - RESTART_WINDOW, now) && now <= later
    requires |kept| < MAX_RESTARTS && Spaced(all)
    ensures Spaced(all + [later])
  {
    var k := |all| - MAX_RESTARTS;
    if k >= 0 {
      RecentTail(all, if all[k] > now - RESTART_WINDOW then MAX_RESTARTS else 0, now - RESTART_WINDOW);
      assert forall i :: 0 <= i <= k ==> all[i] <= all[k] <= now - RESTART_WINDOW;
    }
  }

  /** What one tick does to the restart list and to the full history. */
  lemma TickRestarts(g: Guard, t: Tick, all: seq<Time>, cut: Time, clock: Time) returns (cut': Time, clock': Time)
    requires Summary(g.restarts, all, cut, clock) && Spaced(all) && clock <= t.now <= t.later
    ensures var (g', e) := Checked(g, t);
      var all' := if e.restarted then all + [t.later] else all;
      Summary(g'.restarts, all', cut', clock') && Spaced(all') && clock' <= t.later
  {
    hide Summary, Spaced, After;
    cut', clock' := cut, clock;
    if t.listening && WantsRestart(Probed(g, t), t) && t.managed {
      var kept := After(g.restarts, t.now - RESTART_WINDOW);
      Prune1(g.restarts, all, cut, clock, t.now);
      cut', clock' := t.now - RESTART_WINDOW, t.now;
      if |kept| < MAX_RESTARTS {
        Add1(kept, all, t.now, t.later);
        RoomMeansSpaced(kept, all, t.now, t.later);
        clock' := t.later;
      }
    }
  }

  lemma StartSummary(clock: Time)
    ensures Summary([], [], clock - RESTART_WINDOW, clock) && Spaced([])
  {}

  lemma {:induction false} RestartsSummarized(ticks: seq<Tick>, start: Time) returns (cut: Time, clock: Time)
    requires Monotone(ticks) && (ticks != [] ==> start <= ticks[0].now)
    ensures Summary(GuardAfter(ticks).restarts, AllRestarts(ticks), cut, clock) && Spaced(AllRestarts(ticks))
    ensures clock <= if ticks == [] then start else ticks[|ticks| - 1].later
    decreases |ticks|
  {
    hide Summary, Spaced, Checked;
    if ticks == [] {
      cut, clock := start - RESTART_WINDOW, start;
      StartSummary(clock);
    } else {
      var n := |ticks| - 1;
      var all := AllRestarts(ticks[..n]);
      cut, clock := RestartsSummarized(ticks[..n], start);
      cut, clock := TickRestarts(GuardAfter(ticks[..n]), ticks[n], all, cut, clock);
      assert all + [] == all;
    }
  }

  /** Any four successive restarts span at least half an hour. */
  lemma FourRestartsSpan(ticks: seq<Tick>, i: nat)
    requires Monotone(ticks) && i + 3 < |AllRestarts(ticks)|
    ensures AllRestarts(ticks)[i + 3] - AllRestarts(ticks)[i] >= RESTART_WINDOW
  {
    var _, _ := RestartsSummarized(ticks, if ticks == [] then 0 else ticks[0].now);
  }

  /** The pid of the last tick at which exactly one server was up, 0 before the first. */
  function LastSinglePID(ticks: seq<Tick>): int
    decreases |ticks|
  {
    if ticks == [] then 0
    else
      var t := ticks[|ticks| - 1];
      if t.listening && |t.servers| == 1 then t.servers[0] else LastSinglePID(ticks[..|ticks| - 1])
  }

  lemma {:induction false} RemembersPID(ticks: seq<Tick>)
    ensures GuardAfter(ticks).lastPID == LastSinglePID(ticks)
    decreases |ticks|
  {
    if ticks != [] {
      RemembersPID(ticks[..|ticks| - 1]);
    }
  }

  /** The sidecar is restarted exactly when the one server is not the one seen last, however many
      ticks without a single server came in between. */
  lemma SidecarFollowsServer(before: seq<Tick>, t: Tick)
    ensures Checked(GuardAfter(before), t).1.sidecar <==>
      && t.listening && |t.servers| == 1
      && LastSinglePID(before) != 0 && t.servers[0] != LastSinglePID(before)
  {
    RemembersPID(before);
  }

  /** The last `k` ticks that reached a listening server all failed to answer. */
  predicate SilentFor(ticks: seq<Tick>, k: nat)
    decreases |ticks|
  {
    k == 0 ||
    (ticks != [] &&
     var front, t := ticks[..|ticks| - 1], ticks[|ticks| - 1];
     if t.listening then t.probe.None? && SilentFor(front, k - 1) else SilentFor(front, k))
  }

  /** A wedged count of k stands for k unanswered probes in a row. */
  lemma {:induction false} WedgedMeansSilent(ticks: seq<Tick>, k: nat)
    requires k <= GuardAfter(ticks).wedged
    ensures SilentFor(ticks, k)
    decreases |ticks|
  {
    if k > 0 {
      var front, t := ticks[..|ticks| - 1], ticks[|ticks| - 1];
      WedgedMeansSilent(front, if t.listening then k - 1 else k);
    }
  }

  /** With a single server and every phone listed, one missed probe never restarts the server. */
  lemma OneMissedProbeIsForgiven(before: seq<Tick>, t: Tick)
    requires |t.servers| <= 1 && GuardAfter(before).unseen == 0
    requires Checked(GuardAfter(before), t).1.restarted
    ensures t.probe.None? && SilentFor(before, 1)
  {
    WedgedMeansSilent(before, if GuardAfter(before).wedged > 0 then 1 else 0);
  }

  // ----- when the server is restarted -----

  predicate RestartAt(ticks: seq<Tick>, i: nat)
    requires i < |ticks|
  {
    Checked(GuardAfter(ticks[..i]), ticks[i]).1.restarted
  }

  /** The last tick that reached a listening server got no answer and did not restart it. */
  ghost predicate WasSilent(ticks: seq<Tick>) {
    exists k: nat :: k < |ticks| && SilentLast(ticks, k)
  }

  predicate SilentLast(ticks: seq<Tick>, k: nat)
    requires k < |ticks|
  {
    && ticks[k].listening && ticks[k].probe == None && !RestartAt(ticks, k)
    && forall i :: k < i < |ticks| ==> !ticks[i].listening
  }

  predicate Answered(t: Tick) { t.listening && t.probe.Some? }

  predicate Missing(t: Tick) { Answered(t) && t.probe.value > 0 }

  /** Tick k missed a phone, every answer since missed one too, and no restart came. */
  predicate MissingSince(ticks: seq<Tick>, k: nat)
    requires k < |ticks|
  {
    Missing(ticks[k]) && forall i :: k <= i < |ticks| ==> (Answered(ticks[i]) ==> Missing(ticks[i])) && !RestartAt(ticks, i)
  }

  ghost predicate MissedOnce(ticks: seq<Tick>) { exists k: nat :: k < |ticks| && MissingSince(ticks, k) }

  ghost predicate MissedTwice(ticks: seq<Tick>) {
    exists j: nat, k: nat :: j < k < |ticks| && MissingSince(ticks, j) && Missing(ticks[k])
  }

  lemma RestartStays(ticks: seq<Tick>, i: nat)
    requires i < |ticks| - 1
    ensures RestartAt(ticks[..|ticks| - 1], i) == RestartAt(ticks, i) && ticks[..|ticks| - 1][i] == ticks[i]
  {
    assert ticks[..|ticks| - 1][..i] == ticks[..i];
  }

  lemma AllRestartsStay(ticks: seq<Tick>)
    requires ticks != []
    ensures var front := ticks[..|ticks| - 1];
      forall i :: 0 <= i < |front| ==> front[i] == ticks[i] && RestartAt(front, i) == RestartAt(ticks, i)
  {
    forall i | 0 <= i < |ticks| - 1
      ensures RestartAt(ticks[..|ticks| - 1], i) == RestartAt(ticks, i)
    {
      RestartStays(ticks, i);
    }
  }

  lemma SilentStep(ticks: seq<Tick>)
    requires ticks != []
    ensures var n := |ticks| - 1;
      WasSilent(ticks) <==> if ticks[n].listening then ticks[n].probe == None && !RestartAt(ticks, n) else WasSilent(ticks[..n])
  {
    hide RestartAt;
    var n: nat := |ticks| - 1;
    AllRestartsStay(ticks);
    assert forall k: nat :: k < n ==> (SilentLast(ticks, k) <==> SilentLast(ticks[..n], k) && !ticks[n].listening);
    assert SilentLast(ticks, n) <==> ticks[n].listening && ticks[n].probe == None && !RestartAt(ticks, n);
    hide SilentLast;
  }

  lemma MissingStep(ticks: seq<Tick>, k: nat)
    requires k < |ticks|
    ensures var n := |ticks| - 1;
      MissingSince(ticks, k) <==>
        (!RestartAt(ticks, n) && (Answered(ticks[n]) ==> Missing(ticks[n])) &&
         if k == n then Missing(ticks[n]) else MissingSince(ticks[..n], k))
  {
    hide RestartAt;
    AllRestartsStay(ticks);
  }

  lemma MissedOnceStep(ticks: seq<Tick>)
    requires ticks != []
    ensures var n := |ticks| - 1;
      MissedOnce(ticks) <==> (!RestartAt(ticks, n) && (Missing(ticks[n]) || (!Answered(ticks[n]) && MissedOnce(ticks[..n]))))
  {
    hide RestartAt, MissingSince;
    var n: nat := |ticks| - 1;
    forall k: nat | k < |ticks|
      ensures MissingSince(ticks, k) <==>
        (!RestartAt(ticks, n) && (Answered(ticks[n]) ==> Missing(ticks[n])) &&
         if k == n then Missing(ticks[n]) else MissingSince(ticks[..n], k))
    {
      MissingStep(ticks, k);
    }
    assert MissingSince(ticks, n) <==> !RestartAt(ticks, n) && Missing(ticks[n]);
  }

  lemma MissedTwiceStep(ticks: seq<Tick>)
    requires ticks != []
    ensures var n := |ticks| - 1;
      MissedTwice(ticks) <==>
        (!RestartAt(ticks, n) && if Missing(ticks[n]) then MissedOnce(ticks[..n]) else !Answered(ticks[n]) && MissedTwice(ticks[..n]))
  {
    hide RestartAt, MissingSince;
    var n: nat := |ticks| - 1;
    var front := ticks[..n];
    forall k: nat | k < |ticks|
      ensures MissingSince(ticks, k) <==>
        (!RestartAt(ticks, n) && (Answered(ticks[n]) ==> Missing(ticks[n])) &&
         if k == n then Missing(ticks[n]) else MissingSince(front, k))
    {
      MissingStep(ticks, k);
    }
    assert forall k :: 0 <= k < n ==> front[k] == ticks[k];
    assert Missing(ticks[n]) ==> Answered(ticks[n]);
    if !RestartAt(ticks, n) && Missing(ticks[n]) && MissedOnce(front) {
      var j: nat :| j < n && MissingSince(front, j);
      assert MissingSince(ticks, j) && Missing(ticks[n]);
    } else if !RestartAt(ticks, n) && !Answered(ticks[n]) && MissedTwice(front) {
      var j: nat, k: nat :| j < k < n && MissingSince(front, j) && Missing(front[k]);
      assert MissingSince(ticks, j) && Missing(ticks[k]);
    }
  }

  /** What the counters stand for: silence since the last answer or restart, and phones missed by all
      answers since. */
  lemma {:induction false} CountersSummarize(ticks: seq<Tick>)
    ensures GuardAfter(ticks).wedged >= 1 <==> WasSilent(ticks)
    ensures GuardAfter(ticks).unseen >= 1 <==> MissedOnce(ticks)
    ensures GuardAfter(ticks).unseen >= 2 <==> MissedTwice(ticks)
    decreases |ticks|
  {
    if ticks != [] {
      var n := |ticks| - 1;
      CountersSummarize(ticks[..n]);
      SilentStep(ticks);
      MissedOnceStep(ticks);
      MissedTwiceStep(ticks);
      CountersAfter(GuardAfter(ticks[..n]), ticks[n]);
      hide WasSilent, MissedOnce, MissedTwice, Checked;
    }
  }

  lemma CountersAfter(g: Guard, t: Tick)
    ensures var (g', e) := Checked(g, t);
      && (!t.listening ==> g'.wedged == g.wedged && g'.unseen == g.unseen && !e.restarted)
      && (e.restarted ==> g'.wedged == g'.unseen == 0)
      && (t.listening && !e.restarted ==>
            && g'.wedged == (if t.probe == None then g.wedged + 1 else 0)
            && g'.unseen == (if t.probe == None then g.unseen else if t.probe.value > 0 then g.unseen + 1 else 0))
  {
    hide After;
  }

  /** A listening server is restarted exactly when it is managed, fewer than three restarts came in
      the last half hour, and more than one server is up, or this is the second unanswered probe in a
      row, or two answers in a row have missed a phone. */
  lemma RestartIff(before: seq<Tick>, t: Tick)
    requires Monotone(before + [t])
    ensures Checked(GuardAfter(before), t).1.restarted <==>
      && t.listening && t.managed && |After(AllRestarts(before), t.now - 30 * MINUTE)| < 3
      && (|t.servers| > 1 || (t.probe == None && (WasSilent(before) || MissedTwice(before))) ||
          (Missing(t) && MissedOnce(before)))
  {
    var g := GuardAfter(before);
    CountersSummarize(before);
    RoomIsHistory(before, t);
    hide GuardAfter, AllRestarts, WasSilent, MissedOnce, MissedTwice, After;
  }

  lemma RoomIsHistory(before: seq<Tick>, t: Tick)
    requires Monotone(before + [t])
    ensures After(GuardAfter(before).restarts, t.now - RESTART_WINDOW) == After(AllRestarts(before), t.now - RESTART_WINDOW)
  {
    hide GuardAfter, AllRestarts, Monotone, After;
    MonotoneFront(before, t);
    var cut, clock := RestartsSummarized(before, if before == [] then t.now else before[0].now);
    AfterAfter(AllRestarts(before), cut, t.now - RESTART_WINDOW);
  }

  lemma MonotoneFront(before: seq<Tick>, t: Tick)
    requires Monotone(before + [t])
    ensures Monotone(before) && (before != [] ==> before[|before| - 1].later <= t.now)
  {
    var all := before + [t];
    assert forall i :: 0 <= i < |before| ==> all[i] == before[i];
    assert all[|before|] == t;
  }

  class AdbServerGuard {
    var lastPID: int
    var wedged: nat
    var unseen: nat
    var restarts: seq<Time>

    ghost function State(): Guard
      reads this
    {
      Guard(lastPID, wedged, unseen, restarts)
    }

    constructor ()
      ensures State() == FRESH
    {
      lastPID, wedged, unseen, restarts := 0, 0, 0, [];
    }

    method RestartADB(t: Tick) returns (restarted: bool)
      modifies this
      ensures (State(), restarted) == Restarted(old(State()), t)
    {
      if !t.managed {
        return false;
      }
      restarts := Prune(restarts, t.now - RESTART_WINDOW);
      if |restarts| >= MAX_RESTARTS {
        return false;
      }
      restarts := restarts + [t.later];
      wedged, unseen := 0, 0;
      return true;
    }

    method Check(t: Tick) returns (e: Effects)
      modifies this
      ensures (State(), e) == Checked(old(State()), t)
    {
      if !t.listening {
        return Effects(false, false);
      }
      if t.probe.None? {
        wedged := wedged + 1;
      } else {
        wedged := 0;
        unseen := if t.probe.value > 0 then unseen + 1 else 0;
      }
      var restarted := false;
      if |t.servers| > 1 || wedged >= 2 || unseen >= 2 {
        restarted := RestartADB(t);
      }
      var sidecar := false;
      if |t.servers| == 1 {
        var pid := t.servers[0];
        sidecar := lastPID != 0 && pid != lastPID;
        lastPID := pid;
      }
      return Effects(restarted, sidecar);
    }
  }
}
