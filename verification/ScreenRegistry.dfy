/** The shared-reader protocol: registry, viewer counts, idle timers and forced teardown, as steps
    between lock sections. The registry lock is held from Choose to AttachTo; every other step
    that needs it is one section of its own. A fired timer may act arbitrarily late. */
module ScreenRegistry {
  import opened Basics
  import S = Stream

  type Dev = string
  type Ep = nat
  type Sid = nat
  type Vid = nat

  /** `stops` counts fired timers in front of their first lock section, `sweeps` those after it. */
  datatype Entry = Entry(dev: Dev, ep: Ep, core: S.Core, stops: nat, sweeps: nat)

  datatype Phase =
    | Looked(ep: Ep)
    | Chosen(sid: Sid)
    | Watching(sid: Sid)
    | Leaving(sid: Sid, found: Option<Sid>)
    | Gone

  datatype Viewer = Viewer(dev: Dev, phase: Phase)

  datatype World = World(
    endpoints: map<Dev, Ep>,
    registry: map<Dev, Sid>,
    streams: map<Sid, Entry>,
    viewers: map<Vid, Viewer>,
    lock: Option<Vid>)

  const INIT := World(map[], map[], map[], map[], None)

  datatype Step =
    | Lookup(v: Vid, d: Dev)
    | Choose(v: Vid, next: Sid)
    | AttachTo(v: Vid)
    | CloseLookup(v: Vid)
    | CloseDrop(v: Vid)
    | Fire(s: Sid)
    | Stop(s: Sid)
    | Sweep(s: Sid)
    | SetEndpoint(d: Dev, ep: Ep)
    | Unset(d: Dev)
    | NewFrame(s: Sid, b: Bytes)
    | ReadFailed(s: Sid)

  predicate Reusable(w: World, d: Dev) {
    d in w.registry && w.registry[d] in w.streams && !w.streams[w.registry[d]].core.closed
  }

  predicate Enabled(w: World, a: Step) {
    match a
    case Lookup(v, d) => w.lock == None && v !in w.viewers && d in w.endpoints
    case Choose(v, next) =>
      w.lock == None && v in w.viewers && w.viewers[v].phase.Looked? && next !in w.streams
    case AttachTo(v) =>
      v in w.viewers && w.viewers[v].phase.Chosen? && w.viewers[v].phase.sid in w.streams
    case CloseLookup(v) => w.lock == None && v in w.viewers && w.viewers[v].phase.Watching?
    case CloseDrop(v) =>
      v in w.viewers && w.viewers[v].phase.Leaving? &&
      (w.viewers[v].phase.found == None || w.viewers[v].phase.found.value in w.streams)
    case Fire(s) => s in w.streams && w.streams[s].core.idle == S.Armed
    case Stop(s) => s in w.streams && w.streams[s].stops > 0
    case Sweep(s) => w.lock == None && s in w.streams && w.streams[s].sweeps > 0
    case SetEndpoint(d, _) => w.lock == None && (d in w.registry ==> w.registry[d] in w.streams)
    case Unset(d) => w.lock == None && (d in w.registry ==> w.registry[d] in w.streams)
    case NewFrame(s, _) => s in w.streams
    case ReadFailed(s) => s in w.streams
  }

  function WithPhase(w: World, v: Vid, p: Phase): World
    requires v in w.viewers
  {
    w.(viewers := w.viewers[v := w.viewers[v].(phase := p)])
  }

  function WithEntry(w: World, s: Sid, e: Entry): World { w.(streams := w.streams[s := e]) }

  /** Tears down the registered reader of a device, if any. */
  function StopStream(w: World, d: Dev): World
    requires d in w.registry ==> w.registry[d] in w.streams
  {
    if d !in w.registry then w
    else
      var s := w.registry[d];
      WithEntry(w.(registry := w.registry - {d}), s, w.streams[s].(core := S.Tear(w.streams[s].core)))
  }

  function Apply(w: World, a: Step): World
    requires Enabled(w, a)
  {
    match a
    case Lookup(v, d) => w.(viewers := w.viewers[v := Viewer(d, Looked(w.endpoints[d]))])
    case Choose(v, next) =>
      var d := w.viewers[v].dev;
      if Reusable(w, d) then
        WithPhase(w, v, Chosen(w.registry[d])).(lock := Some(v))
      else
        WithPhase(
          WithEntry(w, next, Entry(d, w.viewers[v].phase.ep, S.FRESH, 0, 0))
            .(registry := w.registry[d := next], lock := Some(v)),
          v, Chosen(next))
    case AttachTo(v) =>
      var s := w.viewers[v].phase.sid;
      WithPhase(
        WithEntry(w, s, w.streams[s].(core := S.Attach(w.streams[s].core))).(lock := None),
        v, Watching(s))
    case CloseLookup(v) =>
      var d := w.viewers[v].dev;
      WithPhase(w, v, Leaving(w.viewers[v].phase.sid, if d in w.registry then Some(w.registry[d]) else None))
    case CloseDrop(v) =>
      match w.viewers[v].phase.found {
        case None => WithPhase(w, v, Gone)
        case Some(s) =>
          WithPhase(WithEntry(w, s, w.streams[s].(core := S.Drop(w.streams[s].core))), v, Gone)
      }
    case Fire(s) =>
      var e := w.streams[s];
      WithEntry(w, s, e.(core := e.core.(idle := S.Fired), stops := e.stops + 1))
    case Stop(s) =>
      var e := w.streams[s];
      WithEntry(w, s, e.(core := S.StopIfUnwatched(e.core), stops := e.stops - 1,
                         sweeps := if e.core.refs > 0 then e.sweeps else e.sweeps + 1))
    case Sweep(s) =>
      var e := w.streams[s];
      var w' := WithEntry(w, s, e.(sweeps := e.sweeps - 1));
      if e.dev in w.registry && w.registry[e.dev] == s then w'.(registry := w.registry - {e.dev}) else w'
    case SetEndpoint(d, ep) => StopStream(w.(endpoints := w.endpoints[d := ep]), d)
    case Unset(d) => StopStream(w.(endpoints := w.endpoints - {d}), d)
    case NewFrame(s, b) => WithEntry(w, s, w.streams[s].(core := S.Publish(w.streams[s].core, b)))
    case ReadFailed(s) => WithEntry(w, s, w.streams[s].(core := S.Fail(w.streams[s].core)))
  }

  // ----- safety of every interleaving -----

  predicate Open(w: World, s: Sid) { s in w.streams && !w.streams[s].core.closed }

  predicate KnownBy(w: World, s: Sid, d: Dev) { s in w.streams && w.streams[s].dev == d }

  /** Everything the world refers to exists, under the right device. */
  ghost predicate WellFormed(w: World) {
    && (forall d :: d in w.registry ==> KnownBy(w, w.registry[d], d))
    && (forall v :: v in w.viewers ==> GoodViewer(w, w.viewers[v]))
    && (forall v :: v in w.viewers && w.viewers[v].phase.Chosen? ==> w.lock == Some(v))
  }

  ghost predicate GoodViewer(w: World, x: Viewer) {
    match x.phase
    case Looked(_) => true
    case Chosen(s) => KnownBy(w, s, x.dev)
    case Watching(s) => KnownBy(w, s, x.dev)
    case Leaving(s, found) => KnownBy(w, s, x.dev) && (found.Some? ==> KnownBy(w, found.value, x.dev))
    case Gone => true
  }

  /** Each stream not yet closed is the one registered for its device. */
  ghost predicate OpenIsRegistered(w: World) {
    forall s :: Open(w, s) ==> w.streams[s].dev in w.registry && w.registry[w.streams[s].dev] == s
  }

  /** A watched stream has no idle timer, and a timer that means to clean up has closed its stream. */
  ghost predicate TimersAgree(w: World) {
    forall s :: s in w.streams ==>
      && (w.streams[s].core.refs > 0 ==> w.streams[s].core.idle == S.NoTimer)
      && (w.streams[s].sweeps > 0 ==> w.streams[s].core.closed)
  }

  ghost predicate Inv(w: World) {
    WellFormed(w) && OpenIsRegistered(w) && TimersAgree(w)
  }

  /** What a step does to one stream. */
  function Touched(w: World, a: Step, s: Sid): Entry
    requires Enabled(w, a) && s in w.streams
  {
    var e := w.streams[s];
    match a
    case AttachTo(v) => if w.viewers[v].phase.sid == s then e.(core := S.Attach(e.core)) else e
    case CloseDrop(v) => if w.viewers[v].phase.found == Some(s) then e.(core := S.Drop(e.core)) else e
    case Fire(t) => if t == s then e.(core := e.core.(idle := S.Fired), stops := e.stops + 1) else e
    case Stop(t) =>
      if t != s then e
      else e.(core := S.StopIfUnwatched(e.core), stops := e.stops - 1,
              sweeps := if e.core.refs > 0 then e.sweeps else e.sweeps + 1)
    case Sweep(t) => if t == s then e.(sweeps := e.sweeps - 1) else e
    case SetEndpoint(d, _) => if d in w.registry && w.registry[d] == s then e.(core := S.Tear(e.core)) else e
    case Unset(d) => if d in w.registry && w.registry[d] == s then e.(core := S.Tear(e.core)) else e
    case NewFrame(t, b) => if t == s then e.(core := S.Publish(e.core, b)) else e
    case ReadFailed(t) => if t == s then e.(core := S.Fail(e.core)) else e
    case _ => e
  }

  lemma EntryAfter(w: World, a: Step, s: Sid)
    requires Enabled(w, a)
    ensures s in w.streams ==> s in Apply(w, a).streams && Apply(w, a).streams[s] == Touched(w, a, s)
    ensures s !in w.streams && s in Apply(w, a).streams ==>
      a.Choose? && s == a.next && !Reusable(w, w.viewers[a.v].dev) &&
      Apply(w, a).streams[s] == Entry(w.viewers[a.v].dev, w.viewers[a.v].phase.ep, S.FRESH, 0, 0)
  {}

  lemma KnownKept(w: World, a: Step, s: Sid, d: Dev)
    requires Enabled(w, a) && KnownBy(w, s, d)
    ensures KnownBy(Apply(w, a), s, d)
  {}

  lemma RegistryKept(w: World, a: Step, d: Dev)
    requires WellFormed(w) && Enabled(w, a) && d in Apply(w, a).registry
    ensures KnownBy(Apply(w, a), Apply(w, a).registry[d], d)
  {
    var w' := Apply(w, a);
    hide GoodViewer;
    if d in w.registry && w'.registry[d] == w.registry[d] {
      KnownKept(w, a, w.registry[d], d);
    } else {
      assert a.Choose? && w'.registry[d] == a.next;
    }
  }

  lemma ViewerKept(w: World, a: Step, v: Vid)
    requires WellFormed(w) && Enabled(w, a) && v in Apply(w, a).viewers
    ensures GoodViewer(Apply(w, a), Apply(w, a).viewers[v])
  {
    assert v in w.viewers ==> GoodViewer(w, w.viewers[v]);
    forall s, d | KnownBy(w, s, d)
      ensures KnownBy(Apply(w, a), s, d)
    {
      KnownKept(w, a, s, d);
    }
    hide Apply, KnownBy;
    ViewerMoves(w, a, v);
  }

  /** Where a viewer can be after a step: where it was, or where the step takes it. */
  lemma ViewerMoves(w: World, a: Step, v: Vid)
    requires WellFormed(w) && Enabled(w, a) && v in Apply(w, a).viewers
    ensures var x := Apply(w, a).viewers[v];
      || (v in w.viewers && x == w.viewers[v])
      || x.phase.Looked? || x.phase.Gone?
      || (v in w.viewers && x.dev == w.viewers[v].dev &&
          match x.phase
          case Chosen(s) => KnownBy(Apply(w, a), s, x.dev)
          case Watching(s) => w.viewers[v].phase == Chosen(s)
          case Leaving(s, found) => w.viewers[v].phase == Watching(s) && (found.Some? ==> KnownBy(w, found.value, x.dev))
          case _ => false)
  {
    hide GoodViewer;
  }

  lemma LockKept(w: World, a: Step, v: Vid)
    requires WellFormed(w) && Enabled(w, a) && v in Apply(w, a).viewers && Apply(w, a).viewers[v].phase.Chosen?
    ensures Apply(w, a).lock == Some(v)
  {
    hide GoodViewer, KnownBy;
  }

  lemma WellFormedKept(w: World, a: Step)
    requires WellFormed(w) && Enabled(w, a)
    ensures WellFormed(Apply(w, a))
  {
    var w' := Apply(w, a);
    forall d | d in w'.registry
      ensures KnownBy(w', w'.registry[d], d)
    {
      RegistryKept(w, a, d);
    }
    forall v | v in w'.viewers
      ensures GoodViewer(w', w'.viewers[v])
      ensures w'.viewers[v].phase.Chosen? ==> w'.lock == Some(v)
    {
      ViewerKept(w, a, v);
      if w'.viewers[v].phase.Chosen? { LockKept(w, a, v); }
    }
    hide *;
  }

  lemma OpenIsRegisteredKept(w: World, a: Step)
    requires Inv(w) && Enabled(w, a)
    ensures OpenIsRegistered(Apply(w, a))
  {
    var w' := Apply(w, a);
    forall s | Open(w', s)
      ensures w'.streams[s].dev in w'.registry && w'.registry[w'.streams[s].dev] == s
    {
      OpenStaysRegistered(w, a, s);
    }
    hide Apply;
  }

  /** A registration is lost only to a new reader, to a clean-up of that very stream, or to a teardown. */
  lemma RegistrationAfter(w: World, a: Step, d: Dev)
    requires Enabled(w, a)
    ensures d in w.registry && !(d in Apply(w, a).registry && Apply(w, a).registry[d] == w.registry[d]) ==>
      || (a.Choose? && w.viewers[a.v].dev == d && !Reusable(w, d))
      || (a.Sweep? && w.registry[d] == a.s)
      || ((a.SetEndpoint? || a.Unset?) && a.d == d)
    ensures a.Choose? && w.viewers[a.v].dev == d && !Reusable(w, d) ==>
      d in Apply(w, a).registry && Apply(w, a).registry[d] == a.next
  {}

  lemma OpenStaysRegistered(w: World, a: Step, s: Sid)
    requires Inv(w) && Enabled(w, a) && Open(Apply(w, a), s)
    ensures var w' := Apply(w, a); w'.streams[s].dev in w'.registry && w'.registry[w'.streams[s].dev] == s
  {
    EntryAfter(w, a, s);
    RegistrationAfter(w, a, Apply(w, a).streams[s].dev);
    hide Apply, GoodViewer, WellFormed;
  }

  lemma TimersAgreeKept(w: World, a: Step)
    requires TimersAgree(w) && Enabled(w, a)
    ensures TimersAgree(Apply(w, a))
  {
    var w' := Apply(w, a);
    forall s | s in w'.streams
      ensures w'.streams[s].core.refs > 0 ==> w'.streams[s].core.idle == S.NoTimer
      ensures w'.streams[s].sweeps > 0 ==> w'.streams[s].core.closed
    {
      TimerAgrees(w, a, s);
    }
    hide *;
  }

  lemma TimerAgrees(w: World, a: Step, s: Sid)
    requires TimersAgree(w) && Enabled(w, a) && s in Apply(w, a).streams
    ensures var e := Apply(w, a).streams[s];
      (e.core.refs > 0 ==> e.core.idle == S.NoTimer) && (e.sweeps > 0 ==> e.core.closed)
  {
    EntryAfter(w, a, s);
    hide Apply;
  }

  ghost predicate Execution(ws: seq<World>, steps: seq<Step>) {
    && |ws| == |steps| + 1 && ws[0] == INIT
    && forall i :: 0 <= i < |steps| ==> Enabled(ws[i], steps[i]) && ws[i + 1] == Apply(ws[i], steps[i])
  }

  lemma {:induction false} ReachableInv(ws: seq<World>, steps: seq<Step>, n: nat)
    requires Execution(ws, steps) && n < |ws|
    ensures Inv(ws[n])
  {
    if n > 0 {
      ReachableInv(ws, steps, n - 1);
      WellFormedKept(ws[n - 1], steps[n - 1]);
      OpenIsRegisteredKept(ws[n - 1], steps[n - 1]);
      TimersAgreeKept(ws[n - 1], steps[n - 1]);
    }
  }

  /** In every reachable state a device has at most one open stream, and it is the registered one. */
  lemma OneOpenStreamPerDevice(ws: seq<World>, steps: seq<Step>, n: nat, s: Sid, t: Sid)
    requires Execution(ws, steps) && n < |ws|
    requires Open(ws[n], s) && Open(ws[n], t) && ws[n].streams[s].dev == ws[n].streams[t].dev
    ensures s == t && ws[n].streams[s].dev in ws[n].registry && ws[n].registry[ws[n].streams[s].dev] == s
  {
    ReachableInv(ws, steps, n);
  }

  /** A late timer never removes a newer stream: whatever is open stays open or registered. */
  lemma LateStopRemovesNothingOpen(ws: seq<World>, steps: seq<Step>, n: nat, t: Sid)
    requires Execution(ws, steps) && n < |steps| && Open(ws[n], t)
    requires steps[n].Sweep? || (steps[n].Stop? && steps[n].s != t)
    ensures Open(ws[n + 1], t)
    ensures ws[n].streams[t].dev in ws[n + 1].registry && ws[n + 1].registry[ws[n].streams[t].dev] == t
  {
    ReachableInv(ws, steps, n);
    ReachableInv(ws, steps, n + 1);
  }

  // ----- the registry itself -----

  /** A registered reader is open, or its clean-up is still to come. */
  ghost predicate RegisteredIsLive(w: World) {
    forall d :: d in w.registry && w.registry[d] in w.streams ==>
      Open(w, w.registry[d]) || w.streams[w.registry[d]].sweeps > 0
  }

  lemma RegisteredIsLiveKept(w: World, a: Step)
    requires WellFormed(w) && RegisteredIsLive(w) && Enabled(w, a)
    ensures RegisteredIsLive(Apply(w, a))
  {
    var w' := Apply(w, a);
    forall d | d in w'.registry && w'.registry[d] in w'.streams
      ensures Open(w', w'.registry[d]) || w'.streams[w'.registry[d]].sweeps > 0
    {
      var s := w'.registry[d];
      EntryAfter(w, a, s);
      RegistrySource(w, a, d);
      assert d in w.registry ==> KnownBy(w, w.registry[d], d);
      hide Apply, WellFormed;
    }
  }

  /** A registration was there before, or is of the reader just started; a clean-up or a teardown of
      the device's reader takes it away. */
  lemma RegistrySource(w: World, a: Step, d: Dev)
    requires WellFormed(w) && Enabled(w, a) && d in Apply(w, a).registry
    ensures
      || (d in w.registry && Apply(w, a).registry[d] == w.registry[d] && !(a.Sweep? && w.registry[d] == a.s)
          && !((a.SetEndpoint? || a.Unset?) && a.d == d))
      || (a.Choose? && !Reusable(w, w.viewers[a.v].dev) && Apply(w, a).registry[d] == a.next)
  {
    assert d in w.registry ==> KnownBy(w, w.registry[d], d);
    hide GoodViewer;
  }

  lemma {:induction false} NoDeadRegistration(ws: seq<World>, steps: seq<Step>, n: nat)
    requires Execution(ws, steps) && n < |ws|
    ensures RegisteredIsLive(ws[n])
  {
    hide Inv, Apply, Enabled, RegisteredIsLive, WellFormed;
    if n == 0 {
      NothingRegistered();
    } else {
      var k := n - 1;
      NoDeadRegistration(ws, steps, k);
      ReachableInv(ws, steps, k);
      InvIsWellFormed(ws[k]);
      RegisteredIsLiveKept(ws[k], steps[k]);
      assert ws[k + 1] == Apply(ws[k], steps[k]);
    }
  }

  lemma NothingRegistered()
    ensures RegisteredIsLive(INIT)
  {}

  lemma InvIsWellFormed(w: World)
    requires Inv(w)
    ensures WellFormed(w)
  {}

  /** The endpoint last set for a device and not unset since. */
  function EndpointBy(steps: seq<Step>, n: nat, d: Dev): Option<Ep>
    requires n <= |steps|
  {
    if n == 0 then None
    else
      match steps[n - 1]
      case SetEndpoint(e, ep) => if e == d then Some(ep) else EndpointBy(steps, n - 1, d)
      case Unset(e) => if e == d then None else EndpointBy(steps, n - 1, d)
      case _ => EndpointBy(steps, n - 1, d)
  }

  lemma {:induction false} EndpointsFollowSteps(ws: seq<World>, steps: seq<Step>, n: nat, d: Dev)
    requires Execution(ws, steps) && n < |ws|
    ensures (if d in ws[n].endpoints then Some(ws[n].endpoints[d]) else None) == EndpointBy(steps, n, d)
  {
    if n > 0 {
      var k := n - 1;
      EndpointsFollowSteps(ws, steps, k, d);
      EndpointStep(ws[k], steps[k], d);
      assert ws[k + 1] == Apply(ws[k], steps[k]);
      hide Apply, Enabled;
    }
  }

  lemma EndpointStep(w: World, a: Step, d: Dev)
    requires Enabled(w, a)
    ensures (if d in Apply(w, a).endpoints then Some(Apply(w, a).endpoints[d]) else None) ==
      match a
      case SetEndpoint(e, ep) => if e == d then Some(ep) else (if d in w.endpoints then Some(w.endpoints[d]) else None)
      case Unset(e) => if e == d then None else (if d in w.endpoints then Some(w.endpoints[d]) else None)
      case _ => if d in w.endpoints then Some(w.endpoints[d]) else None
  {}

  /** The frames that the steps put on stream s since it was started, and whether it has failed since
      the last of them. */
  function FramesBy(steps: seq<Step>, n: nat, s: Sid): (seq<Bytes>, bool)
    requires n <= |steps|
  {
    if n == 0 then ([], false)
    else
      var before := FramesBy(steps, n - 1, s);
      match steps[n - 1]
      case NewFrame(t, b) => if t == s then (before.0 + [b], false) else before
      case ReadFailed(t) => if t == s then (before.0, true) else before
      case _ => before
  }

  /** Streams hold the frames read for them and nothing else. */
  lemma {:induction false} StreamsFollowSteps(ws: seq<World>, steps: seq<Step>, n: nat, s: Sid)
    requires Execution(ws, steps) && n < |ws|
    ensures s in ws[n].streams ==> (ws[n].streams[s].core.published, ws[n].streams[s].core.err) == FramesBy(steps, n, s)
    ensures s !in ws[n].streams ==> FramesBy(steps, n, s) == ([], false)
  {
    if n > 0 {
      var k := n - 1;
      StreamsFollowSteps(ws, steps, k, s);
      StreamStep(ws[k], steps[k], s);
      assert ws[k + 1] == Apply(ws[k], steps[k]);
      hide Apply, Enabled;
    }
  }

  lemma StreamStep(w: World, a: Step, s: Sid)
    requires Enabled(w, a)
    ensures s in w.streams ==> s in Apply(w, a).streams
    ensures s in w.streams ==>
      var c, c' := w.streams[s].core, Apply(w, a).streams[s].core;
      && c'.published == (if a.NewFrame? && a.s == s then c.published + [a.b] else c.published)
      && c'.err == (if a.NewFrame? && a.s == s then false else if a.ReadFailed? && a.s == s then true else c.err)
    ensures s !in w.streams ==> !((a.NewFrame? || a.ReadFailed?) && a.s == s)
    ensures s !in w.streams && s in Apply(w, a).streams ==>
      Apply(w, a).streams[s].core.published == [] && !Apply(w, a).streams[s].core.err
  {}

  // ----- viewer counts -----

  predicate Attached(x: Viewer, s: Sid) {
    (x.phase.Watching? || x.phase.Leaving?) && x.phase.sid == s
  }

  function Watchers(w: World, s: Sid): set<Vid> { set v | v in w.viewers && Attached(w.viewers[v], s) }

  predicate ChosenByHolder(w: World, s: Sid) {
    w.lock.Some? && w.lock.value in w.viewers && w.viewers[w.lock.value].phase == Chosen(s)
  }

  /** An idle timer is armed, or one has fired and its stop is still to come. */
  predicate WillStop(e: Entry) { e.core.idle == S.Armed || (e.core.idle == S.Fired && e.stops > 0) }

  ghost predicate CountsWatchers(w: World) {
    forall s :: s in w.streams ==> w.streams[s].core.refs == |Watchers(w, s)|
  }

  ghost predicate NobodyWatchesClosed(w: World) {
    forall v :: v in w.viewers && (w.viewers[v].phase.Watching? || w.viewers[v].phase.Leaving?) ==>
      && Open(w, w.viewers[v].phase.sid)
      && (w.viewers[v].phase.Leaving? ==> w.viewers[v].phase.found == Some(w.viewers[v].phase.sid))
  }

  /** Every open stream nobody watches, nor is about to watch, is going to be stopped: no leak. */
  ghost predicate UnwatchedWillStop(w: World) {
    forall s :: Open(w, s) && w.streams[s].core.refs == 0 && !ChosenByHolder(w, s) ==> WillStop(w.streams[s])
  }

  ghost predicate Accounted(w: World) {
    CountsWatchers(w) && NobodyWatchesClosed(w) && UnwatchedWillStop(w)
  }

  /** What keeps the accounts: nobody watches a reader that is torn down, and no timer closed the
      chosen stream between the check and the attachment inside Subscribe. */
  predicate Orderly(w: World, a: Step) {
    match a
    case AttachTo(v) => v in w.viewers && w.viewers[v].phase.Chosen? && Open(w, w.viewers[v].phase.sid)
    case SetEndpoint(d, _) => Reusable(w, d) ==> w.streams[w.registry[d]].core.refs == 0
    case Unset(d) => Reusable(w, d) ==> w.streams[w.registry[d]].core.refs == 0
    case _ => true
  }

  lemma WatchersAfter(w: World, a: Step, s: Sid)
    requires Enabled(w, a)
    ensures Watchers(Apply(w, a), s) ==
      if a.AttachTo? && w.viewers[a.v].phase.sid == s then Watchers(w, s) + {a.v}
      else if a.CloseDrop? && w.viewers[a.v].phase.sid == s then Watchers(w, s) - {a.v}
      else Watchers(w, s)
  {}

  lemma RefsAfter(w: World, a: Step, s: Sid)
    requires Enabled(w, a)
    ensures s in Apply(w, a).streams <==> s in w.streams || (a.Choose? && s == a.next && !Reusable(w, w.viewers[a.v].dev))
    ensures s in Apply(w, a).streams ==>
      (Apply(w, a).streams[s].core.refs ==
       if s !in w.streams then 0
       else if a.AttachTo? && w.viewers[a.v].phase.sid == s then w.streams[s].core.refs + 1
       else if a.CloseDrop? && w.viewers[a.v].phase.found == Some(s) then w.streams[s].core.refs - 1
       else w.streams[s].core.refs)
  {
    EntryAfter(w, a, s);
    assert a.Choose? && s == a.next && !Reusable(w, w.viewers[a.v].dev) ==> s in Apply(w, a).streams;
    hide Apply;
  }

  lemma CountsKept(w: World, a: Step)
    requires Inv(w) && Accounted(w) && Enabled(w, a)
    ensures CountsWatchers(Apply(w, a))
  {
    var w' := Apply(w, a);
    forall s | s in w'.streams
      ensures w'.streams[s].core.refs == |Watchers(w', s)|
    {
      CountKept(w, a, s);
    }
    hide *;
  }

  lemma CountKept(w: World, a: Step, s: Sid)
    requires Inv(w) && Accounted(w) && Enabled(w, a) && s in Apply(w, a).streams
    ensures Apply(w, a).streams[s].core.refs == |Watchers(Apply(w, a), s)|
  {
    hide Apply, OpenIsRegistered, TimersAgree, UnwatchedWillStop;
    assert s in w.streams ==> w.streams[s].core.refs == |Watchers(w, s)|;
    assert s !in w.streams ==> Watchers(w, s) == {};
    WatchersAfter(w, a, s);
    RefsAfter(w, a, s);
    hide CountsWatchers, WellFormed;
  }

  lemma WatchedHasViewer(w: World, v: Vid)
    requires Accounted(w)
    requires v in w.viewers && (w.viewers[v].phase.Watching? || w.viewers[v].phase.Leaving?)
    ensures var s := w.viewers[v].phase.sid;
      Open(w, s) && w.streams[s].core.refs > 0
  {
    assert v in Watchers(w, w.viewers[v].phase.sid);
  }

  /** A step closes an open stream only when nobody watches it. */
  lemma OpenAfter(w: World, a: Step, s: Sid)
    requires Enabled(w, a) && Orderly(w, a) && Open(w, s) && w.streams[s].core.refs > 0
    ensures Open(Apply(w, a), s)
  {}

  lemma NobodyWatchesClosedKept(w: World, a: Step)
    requires Inv(w) && Accounted(w) && Enabled(w, a) && Orderly(w, a)
    ensures NobodyWatchesClosed(Apply(w, a))
  {
    var w' := Apply(w, a);
    forall v | v in w'.viewers && (w'.viewers[v].phase.Watching? || w'.viewers[v].phase.Leaving?)
      ensures Open(w', w'.viewers[v].phase.sid)
      ensures w'.viewers[v].phase.Leaving? ==> w'.viewers[v].phase.found == Some(w'.viewers[v].phase.sid)
    {
      PhaseAfter(w, a, v);
      var s := w'.viewers[v].phase.sid;
      hide Apply;
      if !(a.AttachTo? && a.v == v) {
        WatchedHasViewer(w, v);
        OpenAfter(w, a, s);
      } else {
        AttachKeepsOpen(w, v);
      }
    }
  }

  lemma AttachKeepsOpen(w: World, v: Vid)
    requires Enabled(w, AttachTo(v)) && Orderly(w, AttachTo(v))
    ensures Open(Apply(w, AttachTo(v)), w.viewers[v].phase.sid)
  {}

  lemma PhaseAfter(w: World, a: Step, v: Vid)
    requires Inv(w) && NobodyWatchesClosed(w) && Enabled(w, a) && v in Apply(w, a).viewers
    requires Apply(w, a).viewers[v].phase.Watching? || Apply(w, a).viewers[v].phase.Leaving?
    ensures v in w.viewers
    ensures if a.AttachTo? && a.v == v then Apply(w, a).viewers[v].phase == Watching(w.viewers[v].phase.sid)
      else
        && (w.viewers[v].phase.Watching? || w.viewers[v].phase.Leaving?)
        && w.viewers[v].phase.sid == Apply(w, a).viewers[v].phase.sid
    ensures Apply(w, a).viewers[v].phase.Leaving? ==>
      Apply(w, a).viewers[v].phase.found == Some(Apply(w, a).viewers[v].phase.sid)
  {
    if a.CloseLookup? && a.v == v {
      assert Open(w, w.viewers[v].phase.sid);
      FoundOwnStream(w, v);
    } else {
      hide OpenIsRegistered, TimersAgree, WellFormed, Inv;
    }
  }

  /** A viewer of an open stream finds that stream when it looks its device up to leave. */
  lemma FoundOwnStream(w: World, v: Vid)
    requires WellFormed(w) && OpenIsRegistered(w) && v in w.viewers && w.viewers[v].phase.Watching?
    requires Open(w, w.viewers[v].phase.sid)
    ensures w.viewers[v].dev in w.registry && w.registry[w.viewers[v].dev] == w.viewers[v].phase.sid
  {
    assert GoodViewer(w, w.viewers[v]);
  }

  lemma UnwatchedWillStopKept(w: World, a: Step)
    requires Inv(w) && Accounted(w) && Enabled(w, a)
    ensures UnwatchedWillStop(Apply(w, a))
  {
    var w' := Apply(w, a);
    forall s | Open(w', s) && w'.streams[s].core.refs == 0 && !ChosenByHolder(w', s)
      ensures WillStop(w'.streams[s])
    {
      assert s in w.streams ==> w.streams[s].core.refs == |Watchers(w, s)|;
      UnwatchedStops(w, a, s);
    }
    hide *;
  }

  lemma UnwatchedStops(w: World, a: Step, s: Sid)
    requires WellFormed(w) && TimersAgree(w) && UnwatchedWillStop(w) && Enabled(w, a)
    requires s in w.streams ==> w.streams[s].core.refs >= 0
    requires Open(Apply(w, a), s) && Apply(w, a).streams[s].core.refs == 0 && !ChosenByHolder(Apply(w, a), s)
    ensures WillStop(Apply(w, a).streams[s])
  {
    EntryAfter(w, a, s);
    ChosenAfter(w, a, s);
    hide Apply, WellFormed;
  }

  lemma ChosenAfter(w: World, a: Step, s: Sid)
    requires WellFormed(w) && Enabled(w, a)
    ensures ChosenByHolder(w, s) && !ChosenByHolder(Apply(w, a), s) ==> a.AttachTo? && w.viewers[a.v].phase.sid == s
    ensures a.Choose? && s == a.next && !Reusable(w, w.viewers[a.v].dev) ==> ChosenByHolder(Apply(w, a), s)
  {
    assert a.AttachTo? ==> w.lock == Some(a.v);
    hide WellFormed;
  }

  lemma DisorderBreaks(w: World, a: Step)
    requires Inv(w) && Accounted(w) && Enabled(w, a) && !Orderly(w, a)
    ensures !NobodyWatchesClosed(Apply(w, a))
  {
    if !a.AttachTo? {
      var s := w.registry[a.d];
      assert Watchers(w, s) != {};
      var v :| v in Watchers(w, s);
      assert Apply(w, a).viewers[v].phase.sid == s;
    } else {
      assert Apply(w, a).viewers[a.v].phase.Watching?;
    }
  }

  /** One step keeps the accounts exactly when it is orderly. */
  lemma StepAccounted(w: World, a: Step)
    requires Inv(w) && Accounted(w) && Enabled(w, a)
    ensures Accounted(Apply(w, a)) <==> Orderly(w, a)
  {
    CountsKept(w, a);
    UnwatchedWillStopKept(w, a);
    if Orderly(w, a) {
      NobodyWatchesClosedKept(w, a);
    } else {
      DisorderBreaks(w, a);
    }
  }

  ghost predicate AccountedUpTo(ws: seq<World>, n: nat) {
    forall i :: 0 <= i <= n < |ws| ==> Accounted(ws[i])
  }

  ghost predicate OrderlyUpTo(ws: seq<World>, steps: seq<Step>, n: nat) {
    forall i :: 0 <= i < n && i < |ws| && i < |steps| ==> Orderly(ws[i], steps[i])
  }

  /** Over a whole run: counts exact, nobody watches a closed stream and no reader leaks in every
      state, if and only if every step was orderly. */
  lemma {:induction false} RunAccounted(ws: seq<World>, steps: seq<Step>, n: nat)
    requires Execution(ws, steps) && n <= |steps|
    ensures AccountedUpTo(ws, n) <==> OrderlyUpTo(ws, steps, n)
  {
    hide Accounted, Orderly, Inv;
    if n == 0 {
      InitAccounted();
    } else {
      RunAccounted(ws, steps, n - 1);
      var k := n - 1;
      assert ws[k + 1] == Apply(ws[k], steps[k]);
      assert AccountedUpTo(ws, n) <==> AccountedUpTo(ws, k) && Accounted(ws[n]);
      assert OrderlyUpTo(ws, steps, n) <==> OrderlyUpTo(ws, steps, k) && Orderly(ws[k], steps[k]);
      ReachableInv(ws, steps, k);
      if Accounted(ws[k]) {
        StepAccounted(ws[k], steps[k]);
      }
    }
  }

  lemma InitAccounted()
    ensures Accounted(INIT)
  {}

  /** A viewer of the device is attached to a stream. */
  predicate Watched(w: World, d: Dev) {
    exists v :: v in w.viewers && w.viewers[v].dev == d && (w.viewers[v].phase.Watching? || w.viewers[v].phase.Leaving?)
  }

  /** An attachment comes right after its check, so that Subscribe takes effect in one go, and no
      endpoint changes under a viewer. */
  predicate UndisturbedAt(ws: seq<World>, steps: seq<Step>, i: nat)
    requires i < |steps| && i < |ws|
  {
    && (steps[i].AttachTo? ==> i > 0 && steps[i - 1].Choose? && steps[i - 1].v == steps[i].v)
    && (steps[i].SetEndpoint? || steps[i].Unset? ==> !Watched(ws[i], steps[i].d))
  }

  ghost predicate Undisturbed(ws: seq<World>, steps: seq<Step>) {
    forall i: nat :: i < |steps| && i < |ws| ==> UndisturbedAt(ws, steps, i)
  }

  /** In runs where every attachment comes right after its check and no endpoint changes under a
      viewer, counts are exact, nobody watches a closed stream and no reader leaks, in every state. */
  lemma {:induction false} UndisturbedAccounted(ws: seq<World>, steps: seq<Step>, n: nat)
    requires Execution(ws, steps) && n <= |steps| && Undisturbed(ws, steps)
    ensures AccountedUpTo(ws, n)
  {
    hide Accounted, Orderly, Inv, Enabled, Apply, Watched;
    if n == 0 {
      InitAccounted();
    } else {
      var k := n - 1;
      UndisturbedAccounted(ws, steps, k);
      assert UndisturbedAt(ws, steps, k);
      ReachableInv(ws, steps, k);
      assert Accounted(ws[k]) && ws[k + 1] == Apply(ws[k], steps[k]);
      if steps[k].AttachTo? {
        var j := k - 1;
        assert ws[j + 1] == Apply(ws[j], steps[j]);
        ChosenIsOpen(ws[j], steps[j]);
        OpenIsOrderly(ws[k], steps[k]);
      } else {
        UnwatchedIsOrderly(ws[k], steps[k]);
      }
      StepAccounted(ws[k], steps[k]);
    }
  }

  lemma ChosenIsOpen(w: World, a: Step)
    requires Enabled(w, a) && a.Choose?
    ensures var w' := Apply(w, a);
      a.v in w'.viewers && w'.viewers[a.v].phase.Chosen? && Open(w', w'.viewers[a.v].phase.sid)
  {}

  lemma OpenIsOrderly(w: World, a: Step)
    requires a.AttachTo? && a.v in w.viewers && w.viewers[a.v].phase.Chosen? && Open(w, w.viewers[a.v].phase.sid)
    ensures Orderly(w, a)
  {}

  lemma UnwatchedIsOrderly(w: World, a: Step)
    requires Inv(w) && Accounted(w) && !a.AttachTo?
    requires a.SetEndpoint? || a.Unset? ==> !Watched(w, a.d)
    ensures Orderly(w, a)
  {
    if a.SetEndpoint? || a.Unset? {
      RefsMeanWatched(w, a.d);
    }
  }

  lemma RefsMeanWatched(w: World, d: Dev)
    requires Inv(w) && Accounted(w)
    ensures Reusable(w, d) && w.streams[w.registry[d]].core.refs != 0 ==> Watched(w, d)
  {
    if Reusable(w, d) && w.streams[w.registry[d]].core.refs != 0 {
      var s := w.registry[d];
      assert Watchers(w, s) != {};
      var v :| v in Watchers(w, s);
      assert GoodViewer(w, w.viewers[v]) && KnownBy(w, s, d);
    }
  }

  // ----- two interleavings the code does not exclude -----

  /** A finite run under construction, ending in w. */
  ghost predicate Leads(ws: seq<World>, steps: seq<Step>, w: World) {
    && Execution(ws, steps) && ws[|steps|] == w
    && forall i :: 1 <= i < |steps| ==> !steps[i].SetEndpoint? && !steps[i].Unset?
  }

  lemma Extend(ws: seq<World>, steps: seq<Step>, w: World, a: Step)
    returns (ws': seq<World>, steps': seq<Step>, w': World)
    requires Leads(ws, steps, w) && Enabled(w, a)
    requires steps != [] && !a.SetEndpoint? && !a.Unset?
    ensures Leads(ws', steps', w') && w' == Apply(w, a) && steps' != []
  {
    hide Enabled, Apply;
    w' := Apply(w, a);
    ws', steps' := ws + [w'], steps + [a];
  }

  lemma Configured(d: Dev) returns (ws: seq<World>, steps: seq<Step>, w: World)
    ensures Leads(ws, steps, w) && steps != [] && w == World(map[d := 7], map[], map[], map[], None)
  {
    w := Apply(INIT, SetEndpoint(d, 7));
    ws, steps := [INIT, w], [SetEndpoint(d, 7)];
  }

  /** The first viewer of a configured device. */
  lemma FirstViewer(d: Dev) returns (ws: seq<World>, steps: seq<Step>, w: World)
    ensures Leads(ws, steps, w) && steps != []
    ensures w == World(map[d := 7], map[d := 0],
      map[0 := Entry(d, 7, S.Core([], false, 1, false, S.NoTimer), 0, 0)], map[1 := Viewer(d, Watching(0))], None)
  {
    hide Leads;
    ws, steps, w := Configured(d);
    ws, steps, w := Extend(ws, steps, w, Lookup(1, d));
    ws, steps, w := Extend(ws, steps, w, Choose(1, 0));
    ws, steps, w := Extend(ws, steps, w, AttachTo(1));
  }

  /** It leaves, and the idle timer fires. */
  lemma TimerFired(d: Dev) returns (ws: seq<World>, steps: seq<Step>, w: World)
    ensures Leads(ws, steps, w) && steps != []
    ensures w == World(map[d := 7], map[d := 0],
      map[0 := Entry(d, 7, S.Core([], false, 0, false, S.Fired), 1, 0)], map[1 := Viewer(d, Gone)], None)
  {
    hide Leads;
    ws, steps, w := FirstViewer(d);
    ws, steps, w := Extend(ws, steps, w, CloseLookup(1));
    ws, steps, w := Extend(ws, steps, w, CloseDrop(1));
    ws, steps, w := Extend(ws, steps, w, Fire(0));
  }

  /** The idle timer can close a stream between Subscribe's check and its attachment: the viewer
      ends up on a closed stream, with no endpoint change and every viewer closed at most once. */
  lemma ViewerOnClosedStream() returns (ws: seq<World>, steps: seq<Step>, w: World)
    ensures Leads(ws, steps, w) && !NobodyWatchesClosed(w)
  {
    hide Leads;
    ws, steps, w := TimerFired("phone");
    ws, steps, w := Extend(ws, steps, w, Lookup(2, "phone"));
    ws, steps, w := Extend(ws, steps, w, Choose(2, 1));
    ws, steps, w := Extend(ws, steps, w, Stop(0));
    ws, steps, w := Extend(ws, steps, w, AttachTo(2));
    assert w.viewers[2] == Viewer("phone", Watching(0)) && !Open(w, 0);
  }

  /** Every open stream reads the endpoint its device has now. */
  ghost predicate ReadsCurrentEndpoint(w: World) {
    forall s :: Open(w, s) ==>
      w.streams[s].dev in w.endpoints && w.endpoints[w.streams[s].dev] == w.streams[s].ep
  }

  /** Subscribe starts a new reader only with the endpoint that is registered at that moment. */
  predicate UpToDate(w: World, a: Step) {
    a.Choose? && a.v in w.viewers && w.viewers[a.v].phase.Looked? && !Reusable(w, w.viewers[a.v].dev) ==>
      var x := w.viewers[a.v];
      x.dev in w.endpoints && w.endpoints[x.dev] == x.phase.ep
  }

  /** A stale reader appears exactly when an endpoint changed between Subscribe's two sections. */
  lemma StepReadsCurrentEndpoint(w: World, a: Step)
    requires Inv(w) && ReadsCurrentEndpoint(w) && Enabled(w, a)
    ensures ReadsCurrentEndpoint(Apply(w, a)) <==> UpToDate(w, a)
  {
    if a.Choose? && !Reusable(w, w.viewers[a.v].dev) {
      NewReader(w, a);
      assert Open(Apply(w, a), a.next);
      assert forall s :: s != a.next ==> (Open(Apply(w, a), s) <==> Open(w, s));
    } else {
      forall s | Open(Apply(w, a), s)
        ensures var e := Apply(w, a).streams[s];
          e.dev in Apply(w, a).endpoints && Apply(w, a).endpoints[e.dev] == e.ep
      {
        OldReader(w, a, s);
      }
    }
  }

  lemma NewReader(w: World, a: Step)
    requires Enabled(w, a) && a.Choose? && !Reusable(w, w.viewers[a.v].dev)
    ensures Apply(w, a).endpoints == w.endpoints
    ensures Apply(w, a).streams ==
      w.streams[a.next := Entry(w.viewers[a.v].dev, w.viewers[a.v].phase.ep, S.FRESH, 0, 0)]
  {}

  /** Whatever else happens, a stream that is still open keeps its endpoint current. */
  lemma OldReader(w: World, a: Step, s: Sid)
    requires Inv(w) && ReadsCurrentEndpoint(w) && Enabled(w, a)
    requires a.Choose? ==> Reusable(w, w.viewers[a.v].dev)
    requires Open(Apply(w, a), s)
    ensures var e := Apply(w, a).streams[s];
      e.dev in Apply(w, a).endpoints && Apply(w, a).endpoints[e.dev] == e.ep
  {
    EntryAfter(w, a, s);
    EndpointAfter(w, a, Apply(w, a).streams[s].dev);
    hide Apply, WellFormed, TimersAgree, S.Attach, S.Drop, S.Publish, S.Fail;
    assert Open(w, s);
  }

  lemma EndpointAfter(w: World, a: Step, d: Dev)
    requires Enabled(w, a)
    ensures !((a.SetEndpoint? || a.Unset?) && a.d == d) ==>
      && (d in Apply(w, a).endpoints <==> d in w.endpoints)
      && (d in w.endpoints ==> Apply(w, a).endpoints[d] == w.endpoints[d])
  {}

  ghost predicate CurrentUpTo(ws: seq<World>, n: nat) {
    forall i :: 0 <= i <= n < |ws| ==> ReadsCurrentEndpoint(ws[i])
  }

  ghost predicate UpToDateUpTo(ws: seq<World>, steps: seq<Step>, n: nat) {
    forall i :: 0 <= i < n && i < |ws| && i < |steps| ==> UpToDate(ws[i], steps[i])
  }

  /** Over a whole run: open streams read their device's current endpoint in every state, if and only
      if no reader was ever started from an endpoint that had changed since. */
  lemma {:induction false} RunReadsCurrentEndpoint(ws: seq<World>, steps: seq<Step>, n: nat)
    requires Execution(ws, steps) && n <= |steps|
    ensures CurrentUpTo(ws, n) <==> UpToDateUpTo(ws, steps, n)
  {
    hide ReadsCurrentEndpoint, UpToDate, Inv;
    if n == 0 {
      InitReadsCurrentEndpoint();
    } else {
      var k := n - 1;
      RunReadsCurrentEndpoint(ws, steps, k);
      assert ws[k + 1] == Apply(ws[k], steps[k]);
      assert CurrentUpTo(ws, n) <==> CurrentUpTo(ws, k) && ReadsCurrentEndpoint(ws[n]);
      assert UpToDateUpTo(ws, steps, n) <==> UpToDateUpTo(ws, steps, k) && UpToDate(ws[k], steps[k]);
      ReachableInv(ws, steps, k);
      if ReadsCurrentEndpoint(ws[k]) {
        StepReadsCurrentEndpoint(ws[k], steps[k]);
      }
    }
  }

  lemma InitReadsCurrentEndpoint()
    ensures ReadsCurrentEndpoint(INIT)
  {}

  lemma StaleReader() returns (ws: seq<World>, steps: seq<Step>)
    ensures Execution(ws, steps) && !ReadsCurrentEndpoint(ws[|steps|])
  {
    var d := "phone";
    steps := [SetEndpoint(d, 7), Lookup(1, d), SetEndpoint(d, 8), Choose(1, 0)];
    var w1 := Apply(INIT, steps[0]);
    var w2 := Apply(w1, steps[1]);
    var w3 := Apply(w2, steps[2]);
    var w4 := Apply(w3, steps[3]);
    ws := [INIT, w1, w2, w3, w4];
    assert Open(w4, 0);
  }
}
