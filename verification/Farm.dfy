/** Devices, reservations and the two tables every component steps on. */
module Farm {
  import opened Basics

  type Dev = string
  type User = string
  type Batch = string

  datatype Status = Offline | Unauthorized | Free | Reserved | Busy | RunningTest | Degraded | Maintenance

  /** The states a device may only be in while somebody holds it. */
  predicate HeldStatus(s: Status) { s == Reserved || s == Busy || s == RunningTest }

  datatype Device = Device(status: Status, adopted: bool)

  datatype Row = Row(dev: Dev, user: User, batch: Batch, created: Time, renewed: Time, expires: Time, released: bool)

  /** The devices and reservations tables; a reservation's id is its position. */
  datatype Tables = Tables(devices: map<Dev, Device>, rows: seq<Row>)

  /** The virtual batch that stands for every reservation of a user. */
  const MINE: Batch := "mine"

  predicate ActiveOn(r: Row, d: Dev) { !r.released && r.dev == d }

  predicate HasActive(rows: seq<Row>, d: Dev) {
    exists i :: 0 <= i < |rows| && ActiveOn(rows[i], d)
  }

  /** At most one unreleased reservation per device: the partial unique index. */
  ghost predicate OneActive(rows: seq<Row>) {
    forall i, j :: 0 <= i < j < |rows| && !rows[i].released && !rows[j].released ==> rows[i].dev != rows[j].dev
  }

  /** No device is reserved, busy or running without an unreleased reservation. */
  ghost predicate HeldHasHold(t: Tables) {
    forall d :: d in t.devices && HeldStatus(t.devices[d].status) ==> HasActive(t.rows, d)
  }

  function WithStatus(devices: map<Dev, Device>, d: Dev, s: Status): map<Dev, Device> {
    if d in devices then devices[d := devices[d].(status := s)] else devices
  }
}
