/** One shared screen reader: the fields of `stream` and its lock sections. */
module Stream {
  import opened Basics

  /** The idle pointer of a stream: no timer, one still armed, or one that has already fired. */
  datatype Idle = NoTimer | Armed | Fired

  /** What the lock of a stream protects. The newest frame is the last published one. */
  datatype Core = Core(published: seq<Bytes>, err: bool, refs: int, closed: bool, idle: Idle)

  const FRESH := Core([], false, 0, false, NoTimer)

  function Publish(c: Core, b: Bytes): Core { c.(published := c.published + [b], err := false) }

  function Fail(c: Core): Core { c.(err := true) }

  /** A viewer attaches: counted, and the idle timer is stopped and forgotten. */
  function Attach(c: Core): Core { c.(refs := c.refs + 1, idle := NoTimer) }

  /** A viewer leaves: the timer is armed by the last one, unless one is already there. */
  function Drop(c: Core): Core {
    var left := c.refs - 1;
    c.(refs := left, idle := if left > 0 || c.idle != NoTimer then c.idle else Armed)
  }

  /** First lock section of a fired timer: back off when somebody watches, close otherwise. */
  function StopIfUnwatched(c: Core): Core {
    if c.refs > 0 then c.(idle := NoTimer) else c.(closed := true)
  }

  /** Forced teardown. */
  function Tear(c: Core): Core { c.(closed := true, idle := NoTimer) }

  class Stream {
    var data: Option<Bytes>
    var count: nat
    var err: bool
    var refs: int
    var closed: bool
    var idle: Idle
    ghost var published: seq<Bytes>

    ghost predicate Valid()
      reads this
    {
      && count == |published|
      && data == (if published == [] then None else Some(published[|published| - 1]))
    }

    ghost function State(): Core
      reads this
    {
      Core(published, err, refs, closed, idle)
    }

    constructor ()
      ensures Valid() && State() == FRESH
    {
      data, count, err, refs, closed, idle, published := None, 0, false, 0, false, NoTimer, [];
    }

    method PublishFrame(b: Bytes)
      requires Valid()
      modifies this
      ensures Valid() && State() == old(State()).(published := old(published) + [b], err := false)
    {
      data, count := Some(b), count + 1;
      err := false;
      published := published + [b];
    }

    method FailWith()
      requires Valid()
      modifies `err
      ensures Valid() && State() == old(State()).(err := true)
    {
      err := true;
    }

    method AddViewer()
      requires Valid()
      modifies `refs, `idle
      ensures Valid() && State() == old(State()).(refs := old(refs) + 1, idle := NoTimer)
    {
      refs := refs + 1;
      if idle != NoTimer {
        idle := NoTimer;
      }
    }

    method DropViewer()
      requires Valid()
      modifies `refs, `idle
      ensures Valid() && refs == old(refs) - 1 && State() == old(State()).(refs := refs, idle := idle)
      ensures idle == if old(refs) <= 1 && old(idle) == NoTimer then Armed else old(idle)
    {
      refs := refs - 1;
      if refs > 0 || idle != NoTimer {
        return;
      }
      idle := Armed;
    }

    method StopSection() returns (closing: bool)
      requires Valid()
      modifies `idle, `closed
      ensures Valid() && State() == if old(refs) > 0 then old(State()).(idle := NoTimer) else old(State()).(closed := true)
      ensures closing == (old(refs) <= 0)
    {
      if refs > 0 {
        idle := NoTimer;
        return false;
      }
      closed := true;
      return true;
    }

    method TearDown()
      requires Valid()
      modifies `idle, `closed
      ensures Valid() && State() == old(State()).(closed := true, idle := NoTimer)
    {
      closed := true;
      if idle != NoTimer {
        idle := NoTimer;
      }
    }
  }
}
