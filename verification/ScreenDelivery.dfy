/** How one stream hands its newest frame to blocked viewers: publish, fail, close, Next and the
    condition variable, taken apart at the points where the stream's lock is free. Broadcasts run
    after the lock is released; the broadcast of an ended context never takes it. */
module ScreenDelivery {
  import opened Basics
  import S = Stream

  type Vid = nat

  /** Ready: in Next, waiting for the lock. InSection: holds it, past the context check. */
  datatype Phase = Outside | Ready | InSection | Waiting

  datatype Frame = Frame(no: nat, data: Bytes)

  /** ctxWake: the context has ended and its broadcast is still to come. got: frames received. */
  datatype Viewer = Viewer(seen: nat, phase: Phase, ctxDone: bool, ctxWake: bool, got: seq<Frame>)

  datatype World = World(core: S.Core, holder: Option<Vid>, broadcasts: nat, viewers: map<Vid, Viewer>)

  const INIT := World(S.FRESH, None, 0, map[])

  datatype Step =
    | Join(v: Vid)
    | StartNext(v: Vid, ended: bool)
    | Enter(v: Vid)
    | Decide(v: Vid)
    | Publish(b: Bytes)
    | Fail
    | Close
    | Broadcast
    | CtxEnd(v: Vid)
    | CtxBroadcast(v: Vid)

  predicate Enabled(w: World, a: Step) {
    match a
    case Join(v) => v !in w.viewers
    case StartNext(v, _) => v in w.viewers && w.viewers[v].phase == Outside
    case Enter(v) => w.holder == None && v in w.viewers && w.viewers[v].phase == Ready
    case Decide(v) => w.holder == Some(v) && v in w.viewers && w.viewers[v].phase == InSection
    case Publish(_) => w.holder == None
    case Fail => w.holder == None
    case Close => w.holder == None
    case Broadcast => w.broadcasts > 0
    case CtxEnd(v) => v in w.viewers && w.viewers[v].phase != Outside && !w.viewers[v].ctxDone
    case CtxBroadcast(v) => v in w.viewers && w.viewers[v].ctxWake
  }

  function Wake(vs: map<Vid, Viewer>): map<Vid, Viewer> {
    map v | v in vs :: if vs[v].phase == Waiting then vs[v].(phase := Ready) else vs[v]
  }

  /** The loop body of Next under the lock. */
  function Look(c: S.Core, x: Viewer): Viewer {
    var n := |c.published|;
    if n > x.seen then x.(seen := n, phase := Outside, got := x.got + [Frame(n, c.published[n - 1])])
    else if c.err || c.closed then x.(phase := Outside)
    else x.(phase := Waiting)
  }

  function Apply(w: World, a: Step): World
    requires Enabled(w, a)
  {
    match a
    case Join(v) => w.(viewers := w.viewers[v := Viewer(0, Outside, false, false, [])])
    case StartNext(v, ended) =>
      w.(viewers := w.viewers[v := w.viewers[v].(phase := Ready, ctxDone := ended, ctxWake := ended)])
    case Enter(v) =>
      if w.viewers[v].ctxDone then w.(viewers := w.viewers[v := w.viewers[v].(phase := Outside)])
      else w.(viewers := w.viewers[v := w.viewers[v].(phase := InSection)], holder := Some(v))
    case Decide(v) => w.(viewers := w.viewers[v := Look(w.core, w.viewers[v])], holder := None)
    case Publish(b) => w.(core := S.Publish(w.core, b), broadcasts := w.broadcasts + 1)
    case Fail => w.(core := S.Fail(w.core), broadcasts := w.broadcasts + 1)
    case Close => w.(core := S.Tear(w.core), broadcasts := w.broadcasts + 1)
    case Broadcast => w.(viewers := Wake(w.viewers), broadcasts := w.broadcasts - 1)
    case CtxEnd(v) => w.(viewers := w.viewers[v := w.viewers[v].(ctxDone := true, ctxWake := true)])
    case CtxBroadcast(v) =>
      var vs := Wake(w.viewers);
      w.(viewers := vs[v := vs[v].(ctxWake := false)])
  }

  ghost predicate Execution(ws: seq<World>, steps: seq<Step>) {
    && |ws| == |steps| + 1 && ws[0] == INIT
    && forall i :: 0 <= i < |steps| ==> Enabled(ws[i], steps[i]) && ws[i + 1] == Apply(ws[i], steps[i])
  }

  // ----- no lost wake-up, no frame out of order -----

  /** Frames came in increasing order, each is the published one of its number, none is newer
      than the newest. */
  ghost predicate Received(c: S.Core, x: Viewer) {
    && x.seen == (if x.got == [] then 0 else x.got[|x.got| - 1].no)
    && (forall i :: 0 <= i < |x.got| ==>
          1 <= x.got[i].no <= |c.published| && x.got[i].data == c.published[x.got[i].no - 1])
    && (forall i, j :: 0 <= i < j < |x.got| ==> x.got[i].no < x.got[j].no)
  }

  /** A blocked viewer with no broadcast pending has nothing to be woken for. */
  predicate NothingMissed(w: World, x: Viewer) {
    x.phase == Waiting && w.broadcasts == 0 ==>
      x.seen == |w.core.published| && !w.core.err && !w.core.closed
  }

  ghost predicate Inv(w: World) {
    && (forall v :: v in w.viewers ==> Received(w.core, w.viewers[v]) && NothingMissed(w, w.viewers[v]))
    && (forall v :: v in w.viewers && w.viewers[v].ctxWake ==> w.viewers[v].ctxDone)
    && (forall v :: v in w.viewers && w.viewers[v].phase == InSection ==> w.holder == Some(v))
  }

  lemma LookReceives(c: S.Core, x: Viewer)
    requires Received(c, x)
    ensures Received(c, Look(c, x))
  {
    var n, y := |c.published|, Look(c, x);
    if n > x.seen {
      assert y.got[..|x.got|] == x.got;
      assert x.got != [] ==> x.got[|x.got| - 1].no == x.seen;
      hide Look;
    } else {
      assert y.seen == x.seen && y.got == x.got;
      ReceivedStays(c, c, x, y);
    }
  }

  /** Publishing appends, so every frame keeps its number; waking and sleeping change no frame. */
  lemma ReceivedStays(c: S.Core, d: S.Core, x: Viewer, y: Viewer)
    requires Received(c, x) && c.published <= d.published && y.seen == x.seen && y.got == x.got
    ensures Received(d, y)
  {}

  lemma StepReceived(w: World, a: Step, v: Vid)
    requires Inv(w) && Enabled(w, a) && v in Apply(w, a).viewers
    ensures Received(Apply(w, a).core, Apply(w, a).viewers[v])
  {
    hide Received;
    if a.Decide? && a.v == v {
      LookReceives(w.core, w.viewers[v]);
    } else if v in w.viewers {
      ReceivedStays(w.core, Apply(w, a).core, w.viewers[v], Apply(w, a).viewers[v]);
    } else {
      ReceivedNothing(Apply(w, a).core);
    }
  }

  lemma ReceivedNothing(c: S.Core)
    ensures Received(c, Viewer(0, Outside, false, false, []))
  {}

  lemma StepNothingMissed(w: World, a: Step, v: Vid)
    requires Inv(w) && Enabled(w, a) && v in Apply(w, a).viewers
    ensures NothingMissed(Apply(w, a), Apply(w, a).viewers[v])
  {
    hide Received;
    if a == Decide(v) {
      assert Received(w.core, w.viewers[v]);
      DecideMissesNothing(w, v);
    } else if a.Broadcast? || a.CtxBroadcast? {
      NobodyWaits(w, a, v);
    } else {
      assert v in w.viewers ==> NothingMissed(w, w.viewers[v]);
      hide Inv;
      OthersMissNothing(w, a, v);
    }
  }

  lemma DecideMissesNothing(w: World, v: Vid)
    requires Enabled(w, Decide(v)) && Received(w.core, w.viewers[v])
    ensures var w' := Apply(w, Decide(v)); v in w'.viewers && NothingMissed(w', w'.viewers[v])
  {
    SeenIsPublished(w.core, w.viewers[v]);
    hide Received;
  }

  /** A broadcast leaves no viewer waiting. */
  lemma NobodyWaits(w: World, a: Step, v: Vid)
    requires Enabled(w, a) && (a.Broadcast? || a.CtxBroadcast?) && v in Apply(w, a).viewers
    ensures Apply(w, a).viewers[v].phase != Waiting
  {}

  /** Any other step puts nobody to sleep, and leaves a broadcast pending if it changes the stream. */
  lemma OthersMissNothing(w: World, a: Step, v: Vid)
    requires Enabled(w, a) && a != Decide(v) && !a.Broadcast? && !a.CtxBroadcast? && v in Apply(w, a).viewers
    requires v in w.viewers ==> NothingMissed(w, w.viewers[v])
    ensures NothingMissed(Apply(w, a), Apply(w, a).viewers[v])
  {
    hide Look, Wake;
  }

  lemma SeenIsPublished(c: S.Core, x: Viewer)
    requires Received(c, x)
    ensures x.seen <= |c.published|
  {}

  lemma StepHolder(w: World, a: Step, v: Vid)
    requires Inv(w) && Enabled(w, a) && v in Apply(w, a).viewers
    requires Apply(w, a).viewers[v].phase == InSection
    ensures Apply(w, a).holder == Some(v)
  {
    hide Received;
  }

  lemma StepContext(w: World, a: Step, v: Vid)
    requires Inv(w) && Enabled(w, a) && v in Apply(w, a).viewers
    ensures Apply(w, a).viewers[v].ctxWake ==> Apply(w, a).viewers[v].ctxDone
  {
    hide Received;
  }

  lemma StepInv(w: World, a: Step)
    requires Inv(w) && Enabled(w, a)
    ensures Inv(Apply(w, a))
  {
    var w' := Apply(w, a);
    hide Apply, Received, NothingMissed;
    forall v | v in w'.viewers
      ensures Received(w'.core, w'.viewers[v]) && NothingMissed(w', w'.viewers[v])
      ensures w'.viewers[v].phase == InSection ==> w'.holder == Some(v)
      ensures w'.viewers[v].ctxWake ==> w'.viewers[v].ctxDone
    {
      StepContext(w, a, v);
      StepReceived(w, a, v);
      StepNothingMissed(w, a, v);
      if w'.viewers[v].phase == InSection {
        StepHolder(w, a, v);
      }
    }
  }

  lemma {:induction false} ReachableInv(ws: seq<World>, steps: seq<Step>, n: nat)
    requires Execution(ws, steps) && n < |ws|
    ensures Inv(ws[n])
  {
    if n > 0 {
      ReachableInv(ws, steps, n - 1);
      StepInv(ws[n - 1], steps[n - 1]);
    }
  }

  /** A viewer blocked in Next with no broadcast pending has seen the newest frame, and the stream
      has neither failed nor closed. */
  lemma NoLostWakeUp(ws: seq<World>, steps: seq<Step>, n: nat, v: Vid)
    requires Execution(ws, steps) && n < |ws|
    requires v in ws[n].viewers && ws[n].viewers[v].phase == Waiting && ws[n].broadcasts == 0
    ensures ws[n].viewers[v].seen == |PublishedBy(steps, n)|
    ensures !FailedLast(steps, n) && !ClosedBefore(steps, n)
  {
    ReachableInv(ws, steps, n);
    StreamFollowsSteps(ws, steps, n);
  }

  /** What a viewer has received: strictly increasing numbers, each naming a published frame. */
  lemma FramesInOrder(ws: seq<World>, steps: seq<Step>, n: nat, v: Vid, i: nat, j: nat)
    requires Execution(ws, steps) && n < |ws| && v in ws[n].viewers
    requires i <= j < |ws[n].viewers[v].got|
    ensures var got, published := ws[n].viewers[v].got, ws[n].core.published;
      && (i < j ==> got[i].no < got[j].no)
      && 1 <= got[j].no <= |published| && got[j].data == published[got[j].no - 1]
  {
    ReachableInv(ws, steps, n);
  }

  /** A blocked viewer that has not seen the newest frame is about to get it: a broadcast is
      pending, and once it has run, the viewer's next turn returns exactly that frame. */
  lemma NewestFrameArrives(ws: seq<World>, steps: seq<Step>, n: nat, v: Vid)
    requires Execution(ws, steps) && n < |ws|
    requires var w := ws[n];
      && v in w.viewers && w.viewers[v].phase == Waiting && !w.viewers[v].ctxDone
      && w.viewers[v].seen < |w.core.published| && w.holder == None
    ensures var w, c := ws[n], ws[n].core;
      && Enabled(w, Broadcast)
      && var w1 := Apply(w, Broadcast);
      && Enabled(w1, Enter(v))
      && var w2 := Apply(w1, Enter(v));
      && Enabled(w2, Decide(v))
      && Apply(w2, Decide(v)).viewers[v].got ==
           w.viewers[v].got + [Frame(|c.published|, c.published[|c.published| - 1])]
      && Apply(w2, Decide(v)).viewers[v].phase == Outside
  {
    ReachableInv(ws, steps, n);
  }

  // ----- what the stream holds, in terms of the steps -----

  /** The frames published by the first n steps. */
  function PublishedBy(steps: seq<Step>, n: nat): seq<Bytes>
    requires n <= |steps|
  {
    if n == 0 then []
    else PublishedBy(steps, n - 1) + match steps[n - 1] case Publish(b) => [b] case _ => []
  }

  /** Step m is a failure, and no frame came after it before step n. */
  ghost predicate FailsLast(steps: seq<Step>, m: nat, n: nat) {
    m < n && m < |steps| && steps[m].Fail? && forall k :: m < k < n && k < |steps| ==> !steps[k].Publish?
  }

  /** A failure came and no frame after it. */
  ghost predicate FailedLast(steps: seq<Step>, n: nat) { exists m: nat :: FailsLast(steps, m, n) }

  ghost predicate ClosedBefore(steps: seq<Step>, n: nat) {
    exists m: nat :: m < n && m < |steps| && steps[m].Close?
  }

  /** The stream holds the frames published, an error exactly while the last failure is newer than
      the last frame, and is closed exactly once somebody closed it. */
  lemma {:induction false} StreamFollowsSteps(ws: seq<World>, steps: seq<Step>, n: nat)
    requires Execution(ws, steps) && n < |ws|
    ensures ws[n].core.published == PublishedBy(steps, n)
    ensures ws[n].core.err <==> FailedLast(steps, n)
    ensures ws[n].core.closed <==> ClosedBefore(steps, n)
  {
    if n > 0 {
      var k: nat := n - 1;
      StreamFollowsSteps(ws, steps, k);
      CoreAfter(ws[k], steps[k]);
      FailedLastAfter(steps, k);
      hide Enabled, Apply, FailedLast;
      assert ws[k + 1] == Apply(ws[k], steps[k]);
      assert ClosedBefore(steps, n) <==> ClosedBefore(steps, k) || steps[k].Close?;
    }
  }

  lemma FailedLastAfter(steps: seq<Step>, k: nat)
    requires k < |steps|
    ensures FailedLast(steps, k + 1) <==> steps[k].Fail? || (FailedLast(steps, k) && !steps[k].Publish?)
  {
    var n := k + 1;
    forall m: nat
      ensures FailsLast(steps, m, n) <==> if m == k then steps[k].Fail? else FailsLast(steps, m, k) && !steps[k].Publish?
    {
      FailsLastAfter(steps, m, k);
    }
    assert steps[k].Fail? ==> FailsLast(steps, k, n);
    assert forall m: nat :: FailsLast(steps, m, k) && !steps[k].Publish? && m != k ==> FailsLast(steps, m, n);
    assert !FailsLast(steps, k, k);
    hide FailsLast;
  }

  lemma FailsLastAfter(steps: seq<Step>, m: nat, k: nat)
    requires k < |steps|
    ensures FailsLast(steps, m, k + 1) <==>
      if m == k then steps[k].Fail? else FailsLast(steps, m, k) && !steps[k].Publish?
  {
    var n := k + 1;
    assert m < k ==> (forall j :: m < j < n ==> !steps[j].Publish?) == ((forall j :: m < j < k ==> !steps[j].Publish?) && !steps[k].Publish?);
  }

  lemma CoreAfter(w: World, a: Step)
    requires Enabled(w, a)
    ensures var c, d := w.core, Apply(w, a).core;
      && d.published == c.published + (match a case Publish(b) => [b] case _ => [])
      && d.err == (a.Fail? || (c.err && !a.Publish?))
      && d.closed == (c.closed || a.Close?)
  {
    assert w.core.published + [] == w.core.published;
  }

  /** A failure or a close reaches a blocked viewer that has seen every frame: after the broadcast its
      next turn ends Next without a frame. */
  lemma EndArrives(ws: seq<World>, steps: seq<Step>, n: nat, v: Vid)
    requires Execution(ws, steps) && n < |steps| && (steps[n].Fail? || steps[n].Close?)
    requires var w := ws[n];
      && v in w.viewers && w.viewers[v].phase == Waiting && !w.viewers[v].ctxDone
      && w.viewers[v].seen == |PublishedBy(steps, n)|
    ensures Enabled(ws[n + 1], Broadcast)
    ensures var w1 := Apply(ws[n + 1], Broadcast);
      && Enabled(w1, Enter(v))
      && var w2 := Apply(w1, Enter(v));
      && Enabled(w2, Decide(v))
      && Apply(w2, Decide(v)).viewers[v].phase == Outside
      && Apply(w2, Decide(v)).viewers[v].got == ws[n].viewers[v].got
  {
    StreamFollowsSteps(ws, steps, n);
    assert ws[n + 1] == Apply(ws[n], steps[n]);
    CoreAfter(ws[n], steps[n]);
    hide PublishedBy, FailedLast, ClosedBefore;
  }

  /** The context of v's current Next has ended: before the call, or since. */
  function ContextEnded(steps: seq<Step>, n: nat, v: Vid): bool
    requires n <= |steps|
  {
    n > 0 &&
    match steps[n - 1]
    case StartNext(u, ended) => if u == v then ended else ContextEnded(steps, n - 1, v)
    case CtxEnd(u) => u == v || ContextEnded(steps, n - 1, v)
    case _ => ContextEnded(steps, n - 1, v)
  }

  lemma {:induction false} ContextFollowsSteps(ws: seq<World>, steps: seq<Step>, n: nat, v: Vid)
    requires Execution(ws, steps) && n < |ws|
    ensures (v in ws[n].viewers && ws[n].viewers[v].ctxDone) <==> ContextEnded(steps, n, v)
  {
    if n > 0 {
      var k := n - 1;
      ContextFollowsSteps(ws, steps, k, v);
      ContextStep(ws[k], steps[k], v);
      assert ws[k + 1] == Apply(ws[k], steps[k]);
      hide Apply, Enabled;
    }
  }

  lemma ContextStep(w: World, a: Step, v: Vid)
    requires Enabled(w, a)
    ensures (v in Apply(w, a).viewers && Apply(w, a).viewers[v].ctxDone) <==>
      if a.StartNext? && a.v == v then a.ended
      else (a.CtxEnd? && a.v == v) || (v in w.viewers && w.viewers[v].ctxDone)
  {}

  /** A viewer whose context has ended leaves Next at its next turn, without a frame. */
  lemma CancelledLeaves(w: World, v: Vid)
    requires Enabled(w, Enter(v)) && w.viewers[v].ctxDone
    ensures var x := Apply(w, Enter(v)).viewers[v];
      x.phase == Outside && x.got == w.viewers[v].got && Apply(w, Enter(v)).holder == None
  {}

  // ----- the context broadcast can be lost -----

  /** Waits although its context has ended and that context's broadcast is over. */
  predicate Unheard(w: World, v: Vid) {
    v in w.viewers && w.viewers[v].phase == Waiting && w.viewers[v].ctxDone && !w.viewers[v].ctxWake
  }

  ghost predicate CancelHeard(w: World) { forall v :: v in w.viewers ==> !Unheard(w, v) }

  predicate NothingToReturn(c: S.Core, x: Viewer) { |c.published| <= x.seen && !c.err && !c.closed }

  /** Still holds the lock, but will go to sleep unheard. */
  predicate Doomed(w: World, v: Vid) {
    && v in w.viewers && w.viewers[v].phase == InSection
    && w.viewers[v].ctxDone && !w.viewers[v].ctxWake && NothingToReturn(w.core, w.viewers[v])
  }

  /** The broadcast of v's context runs while v is past its context check, with nothing to return. */
  predicate TooEarly(w: World, a: Step, v: Vid) {
    a == CtxBroadcast(v) && v in w.viewers && w.viewers[v].phase == InSection && NothingToReturn(w.core, w.viewers[v])
  }

  /** The loss is decided by that broadcast: while v holds the lock nothing can be published. */
  lemma DoomedAfter(w: World, a: Step, v: Vid)
    requires Inv(w) && Enabled(w, a)
    ensures Doomed(Apply(w, a), v) <==> TooEarly(w, a, v) || (Doomed(w, v) && a != Decide(v))
  {
    hide Received, NothingMissed;
  }

  predicate WakesAll(a: Step) { a.Broadcast? || a.CtxBroadcast? }

  lemma UnheardAfter(w: World, a: Step, v: Vid)
    requires Enabled(w, a)
    ensures Unheard(Apply(w, a), v) <==> (Unheard(w, v) && !WakesAll(a)) || (a == Decide(v) && Doomed(w, v))
  {}

  ghost predicate EarlyBroadcastBefore(ws: seq<World>, steps: seq<Step>, n: nat, v: Vid) {
    exists m: nat :: m < n && m < |steps| && m < |ws| && TooEarly(ws[m], steps[m], v)
  }

  lemma {:induction false} DoomedSinceBroadcast(ws: seq<World>, steps: seq<Step>, n: nat, v: Vid)
    requires Execution(ws, steps) && n < |ws| && Doomed(ws[n], v)
    ensures EarlyBroadcastBefore(ws, steps, n, v)
  {
    hide Doomed, TooEarly, Inv;
    if n == 0 {
      NobodyDoomed(v);
      assert false;
    } else {
      var k: nat := n - 1;
      ReachableInv(ws, steps, k);
      DoomedAfter(ws[k], steps[k], v);
      if !TooEarly(ws[k], steps[k], v) {
        DoomedSinceBroadcast(ws, steps, k, v);
      }
    }
  }

  lemma NobodyDoomed(v: Vid)
    ensures !Doomed(INIT, v) && !Unheard(INIT, v)
  {}

  /** A broadcast that came too early, and a later turn of its viewer. */
  ghost predicate Lost(ws: seq<World>, steps: seq<Step>, m: nat, j: nat, n: nat, v: Vid) {
    m < j < n && j < |steps| && j < |ws| && TooEarly(ws[m], steps[m], v) && steps[j] == Decide(v)
  }

  lemma {:induction false} UnheardWasLost(ws: seq<World>, steps: seq<Step>, n: nat, v: Vid)
    requires Execution(ws, steps) && n < |ws| && Unheard(ws[n], v)
    ensures exists m: nat, j: nat :: Lost(ws, steps, m, j, n, v)
  {
    hide Doomed, TooEarly, Unheard;
    if n == 0 {
      NobodyDoomed(v);
      assert false;
    } else {
      var k: nat := n - 1;
      UnheardAfter(ws[k], steps[k], v);
      if Unheard(ws[k], v) {
        UnheardWasLost(ws, steps, k, v);
        var m: nat, j: nat :| Lost(ws, steps, m, j, k, v);
        assert Lost(ws, steps, m, j, n, v);
      } else {
        DoomedSinceBroadcast(ws, steps, k, v);
        var m: nat :| m < k && TooEarly(ws[m], steps[m], v);
        assert Lost(ws, steps, m, k, n, v);
      }
    }
  }

  /** A doomed viewer's next turn leaves it unheard. */
  lemma {:induction false} DoomedSleeps(ws: seq<World>, steps: seq<Step>, i: nat, j: nat, v: Vid) returns (k: nat)
    requires Execution(ws, steps) && i <= j < |steps| && Doomed(ws[i], v) && steps[j] == Decide(v)
    ensures k <= j + 1 && Unheard(ws[k], v)
    decreases j - i
  {
    hide Doomed, TooEarly, Unheard, Inv;
    if steps[i] == Decide(v) {
      UnheardAfter(ws[i], steps[i], v);
      k := i + 1;
    } else {
      ReachableInv(ws, steps, i);
      DoomedAfter(ws[i], steps[i], v);
      k := DoomedSleeps(ws, steps, i + 1, j, v);
    }
  }

  /** In a run, a viewer is left unheard exactly when a broadcast of its context came while it was
      past the check with nothing to return, and it had another turn after that. */
  lemma RunCancelHeard(ws: seq<World>, steps: seq<Step>, n: nat, v: Vid)
    requires Execution(ws, steps) && n < |ws|
    ensures (exists i: nat :: i <= n && Unheard(ws[i], v)) <==> (exists m: nat, j: nat :: Lost(ws, steps, m, j, n, v))
  {
    hide Doomed, TooEarly, Unheard, Inv;
    if i: nat :| i <= n && Unheard(ws[i], v) {
      UnheardWasLost(ws, steps, i, v);
      var m: nat, j: nat :| Lost(ws, steps, m, j, i, v);
      assert Lost(ws, steps, m, j, n, v);
    }
    if m: nat, j: nat :| Lost(ws, steps, m, j, n, v) {
      ReachableInv(ws, steps, m);
      DoomedAfter(ws[m], steps[m], v);
      var k := DoomedSleeps(ws, steps, m + 1, j, v);
    }
  }

  /** A cancellation that lands between the context check and the wait is never heard. */
  lemma LostCancellation() returns (ws: seq<World>, steps: seq<Step>)
    ensures Execution(ws, steps) && !CancelHeard(ws[|steps|])
  {
    steps := [Join(0), StartNext(0, false), Enter(0), CtxEnd(0), CtxBroadcast(0), Decide(0)];
    var w1 := Apply(INIT, steps[0]);
    var w2 := Apply(w1, steps[1]);
    var w3 := Apply(w2, steps[2]);
    var w4 := Apply(w3, steps[3]);
    var w5 := Apply(w4, steps[4]);
    var w6 := Apply(w5, steps[5]);
    ws := [INIT, w1, w2, w3, w4, w5, w6];
    assert w6.viewers[0].phase == Waiting;
  }
}
