/** The login rate limiter: failures are counted per key, the fifth locks the key for a while, and
    a sweeper forgets idle keys. */
module Limiter {
  import opened Basics

  const MAX_FAILS: nat := 5
  const LOCK: Time := 15 * MINUTE

  /** until is None as long as the key was never locked. */
  datatype Bucket = Bucket(fails: nat, until: Option<Time>, seen: Time)

  predicate Blocked(b: Option<Bucket>, now: Time) {
    b.Some? && b.value.until.Some? && now < b.value.until.value
  }

  /** One failure; the clock is read again for the lock. */
  function AfterFail(b: Option<Bucket>, now: Time, lockAt: Time): Bucket {
    var was := if b.Some? then b.value else Bucket(0, None, now);
    if was.fails + 1 >= MAX_FAILS then Bucket(0, Some(lockAt + LOCK), now)
    else Bucket(was.fails + 1, was.until, now)
  }

  predicate Forgettable(b: Bucket, now: Time) {
    now - b.seen > LOCK && (b.until.Some? ==> now > b.until.value)
  }

  function Swept(b: Option<Bucket>, now: Time): Option<Bucket> {
    if b.Some? && Forgettable(b.value, now) then None else b
  }

  /** The sweeper never lifts a lock early. */
  lemma SweepKeepsLocks(b: Option<Bucket>, now: Time, t: Time)
    requires t >= now
    ensures Blocked(Swept(b, now), t) <==> Blocked(b, t)
  {}

  // ----- sequential attempts on one key, none successful -----

  /** A login attempt that passes the check at `check` fails at `at`; a blocked one does nothing. */
  datatype Event = Try(check: Time, at: Time, lockAt: Time) | Sweep(now: Time)

  datatype History = History(bucket: Option<Bucket>, failures: seq<Time>)

  function Replay(events: seq<Event>): History {
    if events == [] then History(None, [])
    else
      After(Replay(events[..|events| - 1]), events[|events| - 1])
  }

  function Begins(e: Event): Time { if e.Try? then e.check else e.now }

  function Ends(e: Event): Time { if e.Try? then e.lockAt else e.now }

  /** One attempt after the other on a monotone clock. */
  ghost predicate Sequential(events: seq<Event>) {
    && (forall i :: 0 <= i < |events| && events[i].Try? ==> events[i].check <= events[i].at <= events[i].lockAt)
    && (forall i, j :: 0 <= i < j < |events| ==> Ends(events[i]) <= Begins(events[j]))
  }

  ghost predicate Ordered(f: seq<Time>) { forall i, j :: 0 <= i < j < |f| ==> f[i] <= f[j] }

  /** Any MAX_FAILS + 1 successive failures span at least the lock window. */
  ghost predicate Spread(f: seq<Time>) {
    forall i, j :: 0 <= i && i + MAX_FAILS <= j < |f| ==> f[j] - f[i] >= LOCK
  }

  /** The current streak is separated from all earlier failures by the lock window. */
  ghost predicate StreakApart(h: History, clock: Time) {
    var f, n := h.failures, |h.failures|;
    match h.bucket
    case None => n == 0 || clock - f[n - 1] > LOCK
    case Some(b) =>
      && b.fails < MAX_FAILS && b.fails <= n && n > 0 && b.seen == f[n - 1]
      && (b.fails == 0 ==> b.until.Some? && b.until.value >= f[n - 1] + LOCK)
      && (0 < b.fails < n ==> f[n - b.fails] - f[n - b.fails - 1] >= LOCK)
  }

  ghost predicate Inv(h: History, clock: Time) {
    && Ordered(h.failures) && Spread(h.failures) && StreakApart(h, clock)
    && (h.failures != [] ==> h.failures[|h.failures| - 1] <= clock)
  }

  function After(h: History, e: Event): History {
    match e
    case Try(check, at, lockAt) =>
      if Blocked(h.bucket, check) then h
      else History(Some(AfterFail(h.bucket, at, lockAt)), h.failures + [at])
    case Sweep(now) => History(Swept(h.bucket, now), h.failures)
  }

  /** A failure that passes the check is a lock window away from the fifth before it. */
  lemma FailureIsApart(h: History, clock: Time, e: Event, i: nat)
    requires Inv(h, clock) && e.Try? && clock <= e.check <= e.at && !Blocked(h.bucket, e.check)
    requires i + MAX_FAILS <= |h.failures|
    ensures e.at - h.failures[i] >= LOCK
  {
    var f, n := h.failures, |h.failures|;
    match h.bucket
    case None => assert f[i] <= f[n - 1];
    case Some(b) =>
      assert f[i] <= f[n - b.fails - 1];
      assert b.fails > 0 ==> f[n - b.fails] <= f[n - 1];
  }

  lemma FailureKeepsSpread(h: History, clock: Time, e: Event)
    requires Inv(h, clock) && e.Try? && clock <= e.check <= e.at && !Blocked(h.bucket, e.check)
    ensures Ordered(h.failures + [e.at]) && Spread(h.failures + [e.at])
  {
    forall i: nat | i + MAX_FAILS <= |h.failures|
      ensures e.at - h.failures[i] >= LOCK
    {
      FailureIsApart(h, clock, e, i);
    }
    hide StreakApart;
    assert forall i :: 0 <= i < |h.failures| ==> h.failures[i] <= h.failures[|h.failures| - 1];
  }

  lemma StepInv(h: History, clock: Time, e: Event)
    requires Inv(h, clock) && clock <= Begins(e) && (e.Try? ==> e.check <= e.at <= e.lockAt)
    ensures Inv(After(h, e), Ends(e))
  {
    if e.Try? && !Blocked(h.bucket, e.check) {
      FailureKeepsSpread(h, clock, e);
    }
    hide Ordered, Spread;
  }

  lemma {:induction false} ReplayInv(events: seq<Event>)
    requires Sequential(events)
    ensures Inv(Replay(events), if events == [] then 0 else Ends(events[|events| - 1]))
    decreases |events|
  {
    if events != [] {
      var n := |events| - 1;
      ReplayInv(events[..n]);
      if n > 0 {
        StepInv(Replay(events[..n]), Ends(events[n - 1]), events[n]);
      } else {
        assert Inv(Replay(events[..n]), Begins(events[n]));
        StepInv(Replay(events[..n]), Begins(events[n]), events[n]);
      }
    }
  }

  /** Wherever the sweeper runs: no span shorter than the lock window holds more than MAX_FAILS
      failures that passed the check. */
  lemma AtMostFivePerWindow(events: seq<Event>, i: nat, j: nat)
    requires Sequential(events)
    requires i <= j < |Replay(events).failures|
    requires Replay(events).failures[j] - Replay(events).failures[i] < 15 * MINUTE
    ensures j - i + 1 <= 5
  {
    ReplayInv(events);
  }

  // ----- and the lock does come -----

  /** No sweep comes more than a lock window after the last failure before it. */
  predicate NeverIdle(events: seq<Event>)
    decreases |events|
  {
    events == [] ||
    var front, e := events[..|events| - 1], events[|events| - 1];
    && NeverIdle(front)
    && (e.Sweep? && Replay(front).failures != [] ==>
          e.now - Replay(front).failures[|Replay(front).failures| - 1] <= LOCK)
  }

  /** The instants at which a failure was the fifth of five, and started a lock. */
  function LockStarts(events: seq<Event>): seq<Time>
    decreases |events|
  {
    if events == [] then []
    else
      var front, e := events[..|events| - 1], events[|events| - 1];
      var h := Replay(front);
      if e.Try? && !Blocked(h.bucket, e.check) && (|h.failures| + 1) % MAX_FAILS == 0
      then LockStarts(front) + [e.lockAt] else LockStarts(front)
  }

  /** The bucket is a summary of the whole history: the failures counted modulo MAX_FAILS, and the
      last lock. */
  predicate Summarizes(bucket: Option<Bucket>, failures: seq<Time>, locks: seq<Time>) {
    if failures == [] then bucket == None && locks == []
    else
      && bucket.Some?
      && bucket.value.fails == |failures| % MAX_FAILS
      && bucket.value.seen == failures[|failures| - 1]
      && bucket.value.until == if locks == [] then None else Some(locks[|locks| - 1] + LOCK)
  }

  lemma FailureSummarized(h: History, locks: seq<Time>, at: Time, lockAt: Time)
    requires Summarizes(h.bucket, h.failures, locks)
    ensures Summarizes(Some(AfterFail(h.bucket, at, lockAt)), h.failures + [at],
      if (|h.failures| + 1) % MAX_FAILS == 0 then locks + [lockAt] else locks)
  {
    assert (h.failures + [at])[|h.failures|] == at;
    assert h.bucket.Some? ==> (h.bucket.value.fails + 1 == MAX_FAILS <==> (|h.failures| + 1) % MAX_FAILS == 0);
  }

  lemma {:induction false} BucketSummarizes(events: seq<Event>)
    requires NeverIdle(events)
    ensures Summarizes(Replay(events).bucket, Replay(events).failures, LockStarts(events))
    decreases |events|
  {
    if events != [] {
      var n := |events| - 1;
      var h, e := Replay(events[..n]), events[n];
      BucketSummarizes(events[..n]);
      if e.Try? && !Blocked(h.bucket, e.check) {
        FailureSummarized(h, LockStarts(events[..n]), e.at, e.lockAt);
        hide Summarizes, AfterFail, NeverIdle;
      }
    }
  }

  /** While attempts keep coming, a key is blocked exactly during the lock window after a fifth failure. */
  lemma BlockedIffLocked(events: seq<Event>, t: Time)
    requires NeverIdle(events)
    ensures Blocked(Replay(events).bucket, t) <==>
      LockStarts(events) != [] && t < LockStarts(events)[|LockStarts(events)| - 1] + LOCK
  {
    BucketSummarizes(events);
  }

  // ----- and an idle key starts afresh -----

  /** The sweeper forgets a key exactly when its last failure is more than the lock window back and no
      lock reaches the sweep. */
  lemma SweepForgets(events: seq<Event>, now: Time)
    requires Sequential(events)
    ensures var h := Replay(events);
      Swept(h.bucket, now) == None <==>
        h.bucket == None ||
        (h.failures != [] && now - h.failures[|h.failures| - 1] > LOCK && !Blocked(h.bucket, now - 1))
  {
    ReplayInv(events);
  }

  /** The number of attempts, blocked ones included. */
  function Tries(events: seq<Event>): nat
    decreases |events|
  {
    if events == [] then 0
    else Tries(events[..|events| - 1]) + if events[|events| - 1].Try? then 1 else 0
  }

  ghost predicate Unlocked(b: Option<Bucket>, fails: nat) {
    b.Some? ==> b.value.until == None && b.value.fails <= fails
  }

  lemma {:induction false} FewFailuresDoNotLock(events: seq<Event>, more: seq<Event>)
    requires Replay(events).bucket == None && Tries(more) < MAX_FAILS
    ensures Unlocked(Replay(events + more).bucket, Tries(more))
    decreases |more|
  {
    if more == [] {
      assert events + more == events;
    } else {
      var n := |more| - 1;
      assert (events + more)[..|events| + n] == events + more[..n];
      FewFailuresDoNotLock(events, more[..n]);
    }
  }

  /** After a sweep that finds the key idle and past its lock, fewer than five attempts, with sweeps
      anywhere among them, never get it locked. */
  lemma IdleKeyStartsAfresh(events: seq<Event>, now: Time, more: seq<Event>, t: Time)
    requires Sequential(events) && Tries(more) < 5
    requires var h := Replay(events);
      h.failures != [] ==> now - h.failures[|h.failures| - 1] > 15 * MINUTE && !Blocked(h.bucket, now - 1)
    ensures !Blocked(Replay(events + [Sweep(now)] + more).bucket, t)
  {
    var swept := events + [Sweep(now)];
    ReplayInv(events);
    SweepForgets(events, now);
    assert swept[..|events|] == events;
    assert Replay(swept).bucket == None;
    hide Replay, Swept, Sequential;
    FewFailuresDoNotLock(swept, more);
  }

  // ----- the limiter object -----

  datatype Answer = RateLimited | Unauthorized | Welcome

  class Limiter {
    var m: map<string, Bucket>

    ghost function Of(key: string): Option<Bucket>
      reads this
    {
      if key in m then Some(m[key]) else None
    }

    constructor ()
      ensures forall k :: Of(k) == None
    {
      m := map[];
    }

    method IsBlocked(key: string, now: Time) returns (r: bool)
      ensures r == Blocked(Of(key), now)
    {
      return key in m && m[key].until.Some? && now < m[key].until.value;
    }

    method Fail(key: string, now: Time, lockAt: Time)
      modifies this
      ensures Of(key) == Some(AfterFail(old(Of(key)), now, lockAt))
      ensures forall k :: k != key ==> Of(k) == old(Of(k))
    {
      var b := if key in m then m[key] else Bucket(0, None, now);
      b := b.(fails := b.fails + 1, seen := now);
      if b.fails >= MAX_FAILS {
        b := b.(until := Some(lockAt + LOCK), fails := 0);
      }
      m := m[key := b];
    }

    method Ok(key: string)
      modifies this
      ensures Of(key) == None && forall k :: k != key ==> Of(k) == old(Of(k))
    {
      m := m - {key};
    }

    method Gc(now: Time)
      modifies this
      ensures forall k :: Of(k) == Swept(old(Of(k)), now)
    {
      var todo := m.Keys;
      while todo != {}
        invariant todo <= m.Keys <= old(m).Keys
        invariant forall k :: k in m ==> m[k] == old(m)[k]
        invariant forall k :: k in old(m) && k !in todo ==> (k in m <==> !Forgettable(old(m)[k], now))
        decreases |todo|
      {
        var k :| k in todo;
        todo := todo - {k};
        if now - m[k].seen > LOCK && (m[k].until.Some? ==> now > m[k].until.value) {
          m := m - {k};
        }
      }
    }

    /** One login attempt; the three clock readings are the check, the failure and the lock. */
    method Login(key: string, correct: bool, e: Event) returns (r: Answer)
      requires e.Try?
      modifies this
      ensures r == if Blocked(old(Of(key)), e.check) then RateLimited else if correct then Welcome else Unauthorized
      ensures Of(key) ==
        match r
        case RateLimited => old(Of(key))
        case Welcome => None
        case Unauthorized => Some(AfterFail(old(Of(key)), e.at, e.lockAt))
      ensures forall k :: k != key ==> Of(k) == old(Of(k))
    {
      var blocked := IsBlocked(key, e.check);
      if blocked {
        return RateLimited;
      }
      if !correct {
        Fail(key, e.at, e.lockAt);
        return Unauthorized;
      }
      Ok(key);
      return Welcome;
    }
  }
}
