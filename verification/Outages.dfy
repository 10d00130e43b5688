/** Which outages of a held device get their grace period, in terms of the whole poll history. */
module Outages {
  import opened Basics
  import opened Farm
  import opened Window
  import opened Poller

  /** Poll k saw the device online, in a held status and not flapping. */
  predicate SeenHealthy(polls: seq<Poll>, k: nat)
    requires k < |polls|
  {
    polls[k].online && HeldStatus(polls[k].status) && !Flapping(WatchAfter(polls[..k]), polls[k].online, polls[k].at)
  }

  /** Poll k missed the device while it was in a held status, and was not judged flapping. */
  predicate Missed(polls: seq<Poll>, k: nat)
    requires k < |polls|
  {
    !polls[k].online && HeldStatus(polls[k].status) && !Flapping(WatchAfter(polls[..k]), polls[k].online, polls[k].at)
  }

  /** Poll k missed the device, and no healthy poll came after it. */
  ghost predicate Unhealed(polls: seq<Poll>, k: nat) {
    k < |polls| && Missed(polls, k) && forall j :: k < j < |polls| ==> !SeenHealthy(polls, j)
  }

  /** The manager's memory of an absence, in terms of the whole history: it is the time of an
      unhealed miss, and no unhealed miss is older. */
  ghost predicate RemembersOldest(polls: seq<Poll>, since: Option<Time>) {
    && (since.Some? ==> exists k: nat :: Unhealed(polls, k) && polls[k].at == since.value)
    && (forall k: nat :: Unhealed(polls, k) ==> since.Some? && since.value <= polls[k].at)
  }

  /** One more poll heals everything, or adds itself if it is a miss, or changes nothing. */
  lemma UnhealedAfter(polls: seq<Poll>, k: nat)
    requires k < |polls|
    ensures var n := |polls| - 1;
      Unhealed(polls, k) <==> if k == n then Missed(polls, n) else Unhealed(polls[..n], k) && !SeenHealthy(polls, n)
  {
    hide Flapping;
    var n := |polls| - 1;
    if k < n {
      var front := polls[..n];
      forall j | 0 <= j < n
        ensures front[j] == polls[j] && front[..j] == polls[..j]
      {}
      assert Missed(front, k) <==> Missed(polls, k);
      assert forall j :: 0 <= j < n ==> (SeenHealthy(front, j) <==> SeenHealthy(polls, j));
    }
  }

  lemma SinceAfter(polls: seq<Poll>)
    requires polls != []
    ensures var n := |polls| - 1; var was := WatchAfter(polls[..n]).since;
      WatchAfter(polls).since ==
        if SeenHealthy(polls, n) then None
        else if Missed(polls, n) && was.None? then Some(polls[n].at)
        else was
  {
    hide Flapping, NextFlap;
  }

  lemma {:induction false} SinceIsOldestMiss(polls: seq<Poll>)
    requires Monotone(polls)
    ensures RemembersOldest(polls, WatchAfter(polls).since)
    decreases |polls|
  {
    if polls != [] {
      var n := |polls| - 1;
      SinceIsOldestMiss(polls[..n]);
      SinceAfter(polls);
      hide WatchAfter, SeenHealthy, Missed, Unhealed;
      forall k: nat | k < |polls|
        ensures Unhealed(polls, k) <==>
          if k == n then Missed(polls, n) else Unhealed(polls[..n], k) && !SeenHealthy(polls, n)
      {
        UnhealedAfter(polls, k);
      }
      OneMorePoll(polls, WatchAfter(polls[..n]).since, WatchAfter(polls).since);
    }
  }

  lemma UnhealedInside(polls: seq<Poll>)
    ensures forall k: nat :: Unhealed(polls, k) ==> k < |polls|
  {}

  /** The two readings of one more poll, on the history and on the memory, agree. */
  ghost predicate Agrees(polls: seq<Poll>, was: Option<Time>, since: Option<Time>)
    requires polls != []
  {
    var n := |polls| - 1;
    && (forall k: nat :: k < |polls| ==>
          (Unhealed(polls, k) <==> if k == n then Missed(polls, n) else Unhealed(polls[..n], k) && !SeenHealthy(polls, n)))
    && since == (if SeenHealthy(polls, n) then None else if Missed(polls, n) && was.None? then Some(polls[n].at) else was)
  }

  lemma RememberedIsMiss(polls: seq<Poll>, was: Option<Time>, since: Option<Time>)
    requires polls != [] && Agrees(polls, was, since) && since.Some?
    requires RemembersOldest(polls[..|polls| - 1], was)
    ensures exists k: nat :: Unhealed(polls, k) && polls[k].at == since.value
  {
    hide WatchAfter, SeenHealthy, Missed, Unhealed;
    var n := |polls| - 1;
    if was == None {
      assert Unhealed(polls, n) && polls[n].at == since.value;
    } else {
      UnhealedInside(polls[..n]);
      var k: nat :| Unhealed(polls[..n], k) && polls[..n][k].at == was.value;
      assert Unhealed(polls, k) && polls[k].at == since.value;
    }
  }

  lemma NoOlderMiss(polls: seq<Poll>, was: Option<Time>, since: Option<Time>, k: nat)
    requires polls != [] && Agrees(polls, was, since) && Unhealed(polls, k) && Monotone(polls)
    requires RemembersOldest(polls[..|polls| - 1], was)
    ensures since.Some? && since.value <= polls[k].at
  {
    var n := |polls| - 1;
    assert !(Missed(polls, n) && SeenHealthy(polls, n));
    UnhealedInside(polls);
    hide WatchAfter, SeenHealthy, Missed, Unhealed;
    if was.Some? {
      var j: nat :| Unhealed(polls[..n], j) && polls[..n][j].at == was.value;
      UnhealedInside(polls[..n]);
      assert polls[j].at <= polls[n].at;
      assert k < n ==> Unhealed(polls[..n], k) && polls[..n][k] == polls[k];
    }
  }

  lemma OneMorePoll(polls: seq<Poll>, was: Option<Time>, since: Option<Time>)
    requires Monotone(polls) && polls != [] && Agrees(polls, was, since)
    requires RemembersOldest(polls[..|polls| - 1], was)
    ensures RemembersOldest(polls, since)
  {
    hide Agrees, Unhealed, Monotone;
    UnhealedInside(polls);
    if since.Some? {
      RememberedIsMiss(polls, was, since);
    }
    forall k: nat | Unhealed(polls, k)
      ensures since.Some? && since.value <= polls[k].at
    {
      NoOlderMiss(polls, was, since, k);
    }
  }

  /** A held device is moved to offline exactly by an offline, non-flapping poll that comes more than
      the grace period after a missed poll which no healthy poll followed. */
  lemma DemotedIffMissed(before: seq<Poll>, p: Poll)
    requires Monotone(before) && HeldStatus(p.status)
    ensures Next(WatchAfter(before), p) == Offline <==>
      && !p.online && !Flapping(WatchAfter(before), p.online, p.at)
      && exists k: nat :: Unhealed(before, k) && p.at - before[k].at > HELD_GRACE
  {
    SinceIsOldestMiss(before);
    hide WatchAfter, Flapping, Missed, SeenHealthy, Monotone;
  }

  /** If a poll moves a held device to offline, no healthy poll of it came in the grace before. */
  lemma DemotedOnlyAfterGrace(before: seq<Poll>, p: Poll, k: nat)
    requires Monotone(before + [p])
    requires HeldStatus(p.status) && Next(WatchAfter(before), p) == Offline
    requires k < |before| && SeenHealthy(before, k)
    ensures before[k].at < p.at - HELD_GRACE
  {
    hide WatchAfter, Flapping, Next;
    MonotonePrefix(before, [p]);
    DemotedIffMissed(before, p);
    var j: nat :| Unhealed(before, j) && p.at - before[j].at > HELD_GRACE;
    HealthyBefore(before, k, j);
    hide Unhealed, SeenHealthy;
    assert before[k].at <= before[j].at;
  }

  lemma HealthyBefore(polls: seq<Poll>, k: nat, j: nat)
    requires k < |polls| && SeenHealthy(polls, k) && Unhealed(polls, j)
    ensures k < j
  {
    hide WatchAfter, Flapping;
  }

  lemma MonotonePrefix(a: seq<Poll>, b: seq<Poll>)
    requires Monotone(a + b)
    ensures Monotone(a)
  {
    assert forall i :: 0 <= i < |a| ==> a[i] == (a + b)[i];
  }

  // ----- which outages get the full grace -----

  /** The polls of an outage that begins after h, up to the one that demotes the device. */
  ghost predicate Demoting(h: seq<Poll>, outage: seq<Poll>) {
    && outage != [] && Monotone(h + outage)
    && (forall i :: 0 <= i < |outage| ==> !outage[i].online)
    && var n := |outage| - 1;
       HeldStatus(outage[n].status) && Next(WatchAfter(h + outage[..n]), outage[n]) == Offline
  }

  /** However the outage after h goes on, it demotes a held device only after the full grace, counted
      from its first poll after h: when h itself ends inside the outage, from there. */
  ghost predicate NextOutageGetsGrace(h: seq<Poll>) {
    forall outage: seq<Poll> :: Demoting(h, outage) ==> outage[|outage| - 1].at - outage[0].at > HELD_GRACE
  }

  /** The next outage gets its full grace exactly when every missed poll of the history was
      followed by a healthy one. */
  lemma GraceIffHealed(h: seq<Poll>)
    requires Monotone(h)
    ensures NextOutageGetsGrace(h) <==> forall k: nat :: !Unhealed(h, k)
  {
    if forall k: nat :: !Unhealed(h, k) {
      forall outage: seq<Poll> | Demoting(h, outage)
        ensures outage[|outage| - 1].at - outage[0].at > HELD_GRACE
      {
        HealedGetsGrace(h, outage);
      }
    } else {
      var k: nat :| Unhealed(h, k);
      var p := LatePoll(h, k);
      assert Demoting(h, [p]);
      assert [p][|[p]| - 1].at - [p][0].at == 0;
    }
  }

  lemma HealedGetsGrace(h: seq<Poll>, outage: seq<Poll>)
    requires Demoting(h, outage) && forall k: nat :: !Unhealed(h, k)
    ensures outage[|outage| - 1].at - outage[0].at > HELD_GRACE
  {
    hide WatchAfter, Flapping, NextFlap, Next;
    var n := |outage| - 1;
    var before := h + outage[..n];
    assert before + [outage[n]] == h + outage;
    MonotonePrefix(before, [outage[n]]);
    DemotedIffMissed(before, outage[n]);
    var k: nat :| Unhealed(before, k) && outage[n].at - before[k].at > HELD_GRACE;
    if k < |h| {
      EarlierStays(h, outage[..n], k);
      assert false;
    }
    assert before[k] == (h + outage)[k] && outage[0] == (h + outage)[|h|];
  }

  /** What polls after h leave unhealed in h was unhealed in h. */
  lemma EarlierStays(h: seq<Poll>, more: seq<Poll>, k: nat)
    requires k < |h| && Unhealed(h + more, k)
    ensures Unhealed(h, k)
  {
    hide Flapping;
    var all := h + more;
    forall j | 0 <= j < |h|
      ensures h[j] == all[j] && h[..j] == all[..j]
    {}
    assert forall j :: k < j < |h| && SeenHealthy(h, j) ==> SeenHealthy(all, j);
  }

  /** A first poll of an outage, long after an unhealed miss: it demotes at once. */
  lemma LatePoll(h: seq<Poll>, k: nat) returns (p: Poll)
    requires Monotone(h) && Unhealed(h, k)
    ensures Monotone(h + [p]) && Demoting(h, [p])
  {
    var last := h[|h| - 1];
    p := Poll(last.at + FLAP_WINDOW + HELD_GRACE, false, false, Reserved, true);
    assert [p][..0] == [] && h + [] == h;
    FewChanges(h, p);
    DemotedIffMissed(h, p);
  }

  /** A poll later than all others by the flap window sees at most its own change. */
  lemma FewChanges(h: seq<Poll>, p: Poll)
    requires h != [] && Monotone(h) && p.at >= h[|h| - 1].at + FLAP_WINDOW
    ensures !Flapping(WatchAfter(h), p.online, p.at)
  {
    hide WatchAfter, Monotone, Changes, NextFlap, After;
    var last := h[|h| - 1];
    FlapIsRecentHistory(h);
    NoRecentChanges(h, p.at - FLAP_WINDOW);
    OneChange(Changes(h), last.online, last.at, p.online, p.at);
  }

  lemma OneChange(changes: seq<Time>, was: bool, before: Time, online: bool, at: Time)
    requires before <= at && After(changes, at - FLAP_WINDOW) == []
    ensures |NextFlap(Some(Flap(After(changes, before - FLAP_WINDOW), was)), online, at).changes| < FLAPS
  {
    hide NextFlap, After;
    var news := if online != was then [at] else [];
    NextFlapAdds(changes, was, before, online, at);
    AfterConcat(changes, news, at - FLAP_WINDOW);
    assert |After(news, at - FLAP_WINDOW)| <= 1;
  }

  lemma {:induction false} NoRecentChanges(polls: seq<Poll>, cutoff: Time)
    requires Monotone(polls) && (polls != [] ==> polls[|polls| - 1].at <= cutoff)
    ensures After(Changes(polls), cutoff) == []
    decreases |polls|
  {
    if |polls| > 1 {
      var n := |polls| - 1;
      assert polls[n - 1].at <= polls[n].at;
      NoRecentChanges(polls[..n], cutoff);
      AfterOne(polls[n].at, cutoff);
      AfterNone(cutoff);
      AfterConcat(Changes(polls[..n]), if polls[n].online != polls[n - 1].online then [polls[n].at] else [], cutoff);
    }
  }

  const P0 := Poll(0, true, true, Reserved, true)
  const P1 := Poll(10 * SECOND, false, false, Reserved, true)
  const P2 := Poll(110 * SECOND, false, false, Reserved, true)
  const P3 := Poll(200 * SECOND, true, true, Offline, true)
  const P4 := Poll(300 * SECOND, false, false, Reserved, true)

  lemma FirstOutage()
    ensures WatchAfter([P0, P1]) == Watch(Some(Flap([P1.at], false)), Some(P1.at))
    ensures WatchAfter([P0, P1, P2]) == Watch(Some(Flap([], false)), Some(10 * SECOND))
  {
    WatchSnoc([], P0);
    WatchSnoc([P0], P1);
    WatchSnoc([P0, P1], P2);
    AfterNone(P0.at - FLAP_WINDOW);
    AfterOne(P1.at, P1.at - FLAP_WINDOW);
    AfterOne(P1.at, P2.at - FLAP_WINDOW);
    hide WatchAfter, After;
    assert [P0] == [] + [P0] && [P0, P1] == [P0] + [P1] && [P0, P1, P2] == [P0, P1] + [P2];
    assert WatchAfter([]) == UNSEEN by { WatchNothing(); }
    assert WatchAfter([P0]) == Watch(Some(Flap([], true)), None);
    assert [] + [P1.at] == [P1.at] && [P1.at] + [] == [P1.at];
    assert WatchAfter([P0, P1]) == Watch(Some(Flap([P1.at], false)), Some(P1.at));
  }

  lemma WatchNothing()
    ensures WatchAfter([]) == UNSEEN
  {}

  /** The remembered absence survives a demotion: the next outage may get no grace at all, even
      though the device was online, and marked reserved again, right before it. */
  lemma SecondOutageGetsNoGrace()
    ensures Monotone([P0, P1, P2, P3, P4])
    ensures Next(WatchAfter([P0, P1]), P2) == Offline
    ensures Next(WatchAfter([P0, P1, P2]), P3) == Reserved
    ensures Next(WatchAfter([P0, P1, P2, P3]), P4) == Offline
  {
    FirstOutage();
    WatchSnoc([P0, P1], P2);
    WatchSnoc([P0, P1, P2], P3);
    AfterOne(P3.at, P3.at - FLAP_WINDOW);
    AfterOne(P4.at, P4.at - FLAP_WINDOW);
    hide WatchAfter, After;
    assert [P0, P1, P2, P3] == [P0, P1, P2] + [P3];
    assert [] + [P3.at] == [P3.at];
    assert WatchAfter([P0, P1, P2, P3]) == Watch(Some(Flap([P3.at], true)), Some(P1.at));
  }

  lemma WatchSnoc(polls: seq<Poll>, p: Poll)
    ensures WatchAfter(polls + [p]) == After1(WatchAfter(polls), p)
  {
    assert (polls + [p])[..|polls|] == polls;
  }
}
