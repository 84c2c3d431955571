// The AODV routing table: entries, the freshness order between routes, and
// the two elementary updates of an entry (ns-2.35/aodv/aodv_rtable.cc and
// rt_update / rt_down of ns-2.35/aodv/aodv.cc).
module AodvTable {

  type Addr = nat

  /** The hop count of an entry without a route (ns-2.35/aodv/aodv_rtable.h). */
  const INFINITY2: nat := 255

  datatype RouteFlag = Down | Up | InRepair

  datatype Entry = Entry(seqno: nat, hops: nat, nexthop: Addr, flag: RouteFlag, precursors: set<Addr>)

  type Table = map<Addr, Entry>

  /** What rt_add creates. */
  const FreshEntry := Entry(0, INFINITY2, 0, Down, {})

  /** rt_lookup followed, when it finds nothing, by rt_add. */
  function Lookup(t: Table, d: Addr): Entry {
    if d in t then t[d] else FreshEntry
  }

  /** How good a node's knowledge of a destination is: newer sequence number first, then fewer hops. */
  datatype Key = Key(seqno: nat, hops: nat)

  predicate Better(a: Key, b: Key) {
    a.seqno > b.seqno || (a.seqno == b.seqno && a.hops < b.hops)
  }

  predicate AtLeast(a: Key, b: Key) {
    a == b || Better(a, b)
  }

  function KeyOf(t: Table, d: Addr): Key {
    Key(Lookup(t, d).seqno, Lookup(t, d).hops)
  }

  function RtUpdate(e: Entry, seqno: nat, hops: nat, nexthop: Addr): Entry {
    e.(seqno := seqno, hops := hops, nexthop := nexthop, flag := Up)
  }

  /** A route that is already down is left alone. */
  function RtDown(e: Entry): Entry {
    if e.flag == Down then e else e.(hops := INFINITY2, flag := Down, nexthop := 0)
  }

  /** The state machine of an entry: a route is up exactly when it has a hop count, routes that are
      up carry an even positive sequence number, routes that are down carry 0 or an odd one. */
  predicate EntryOk(e: Entry) {
    match e.flag
    case Up => 1 <= e.hops < INFINITY2 && e.seqno > 0 && e.seqno % 2 == 0
    case Down => e.hops == INFINITY2 && (e.seqno == 0 || e.seqno % 2 == 1)
    case InRepair => false
  }

  predicate TableOk(t: Table) {
    forall d | d in t :: EntryOk(t[d])
  }
}
