/** The controller object around the shared readers, each operation run without interruption.
    ScreenRegistry takes the same operations apart at their lock sections. */
module ScreenController {
  import opened Basics
  import S = Stream

  type Dev = string
  type Ep = nat

  class Controller {
    var endpoints: map<Dev, Ep>
    var streams: map<Dev, S.Stream>
    ghost var home: map<S.Stream, Dev> // every reader ever started, and its device

    /** A reader is open exactly while it is the registered one of its device. */
    ghost predicate Valid()
      reads this, home.Keys
    {
      && (forall d :: d in streams ==> streams[d] in home && home[streams[d]] == d && !streams[d].closed)
      && (forall s :: s in home ==> s.Valid())
      && (forall s :: s in home && !s.closed ==> home[s] in streams && streams[home[s]] == s)
    }

    constructor ()
      ensures Valid() && endpoints == map[] && streams == map[] && home == map[]
    {
      endpoints, streams, home := map[], map[], map[];
    }

    /** Tears the device's reader down; no other reader changes. */
    method StopStream(d: Dev)
      requires Valid()
      modifies `streams, if d in streams then {streams[d]} else {}
      ensures Valid()
      ensures streams == old(streams) - {d}
      ensures d in old(streams) ==> old(streams)[d].State() == S.Tear(old(streams[d].State()))
    {
      if d in streams {
        var s := streams[d];
        streams := streams - {d};
        s.TearDown();
      }
    }

    method SetEndpoint(d: Dev, ep: Ep)
      requires Valid()
      modifies `endpoints, `streams, if d in streams then {streams[d]} else {}
      ensures Valid()
      ensures endpoints == old(endpoints)[d := ep] && streams == old(streams) - {d}
      ensures d in old(streams) ==> old(streams)[d].State() == S.Tear(old(streams[d].State()))
    {
      endpoints := endpoints[d := ep];
      StopStream(d);
    }

    method Unset(d: Dev)
      requires Valid()
      modifies `endpoints, `streams, if d in streams then {streams[d]} else {}
      ensures Valid()
      ensures endpoints == old(endpoints) - {d} && streams == old(streams) - {d}
      ensures d in old(streams) ==> old(streams)[d].State() == S.Tear(old(streams[d].State()))
    {
      endpoints := endpoints - {d};
      StopStream(d);
    }

    /** Attaches to the device's one reader, starting it for the first viewer. */
    method Subscribe(d: Dev) returns (r: Option<S.Stream>)
      requires Valid()
      modifies `streams, `home, if d in streams then {streams[d]} else {}
      ensures Valid()
      ensures r.Some? <==> d in endpoints
      ensures r == None ==> streams == old(streams) && home == old(home) && forall s :: s in home ==> s.State() == old(s.State())
      ensures r.Some? ==>
        && streams == old(streams)[d := r.value] && home == old(home)[r.value := d]
        && r.value.State() == S.Attach(if d in old(streams) then old(streams[d].State()) else S.FRESH)
        && (if d in old(streams) then r.value == old(streams)[d] else fresh(r.value))
    {
      if d !in endpoints {
        return None;
      }
      if d !in streams || streams[d].closed {
        NewReader(d);
      }
      streams[d].AddViewer();
      return Some(streams[d]);
    }

    /** Registers a new reader of a device that has none. */
    method NewReader(d: Dev)
      requires Valid() && d !in streams
      modifies `streams, `home
      ensures Valid() && d in streams && fresh(streams[d]) && streams[d].State() == S.FRESH
      ensures streams == old(streams)[d := streams[d]] && home == old(home)[streams[d] := d]
    {
      var s := new S.Stream();
      streams, home := streams[d := s], home[s := d];
    }

    method Release(d: Dev)
      requires Valid()
      modifies if d in streams then {streams[d]} else {}
      ensures Valid()
      ensures d in streams ==> streams[d].State() == S.Drop(old(streams[d].State()))
    {
      if d in streams {
        streams[d].DropViewer();
      }
    }

    /** A fired timer: closes and unregisters s when nobody watches it, and nothing but s. */
    method StopIfIdle(d: Dev, s: S.Stream)
      requires Valid() && s in home && home[s] == d
      modifies `streams, s
      ensures Valid() && s.State() == S.StopIfUnwatched(old(s.State()))
      ensures streams ==
        if old(s.refs) <= 0 && d in old(streams) && old(streams)[d] == s then old(streams) - {d} else old(streams)
    {
      var closing := s.StopSection();
      if closing && d in streams && streams[d] == s {
        streams := streams - {d};
      }
    }
  }
}
