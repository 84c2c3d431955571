// AOMDV as a protocol: any number of nodes and a flight of messages that may be delivered
// late, more than once, in any order, or never; and the invariant of its runs.
module AomdvNetwork {
  import opened Common
  import opened AomdvPaths
  import opened AomdvRtable
  import opened AomdvAgent

  datatype Config = Config(nodes: set<Addr>, limits: Limits)

  datatype Net = Net(nodes: map<Addr, Node>, flight: set<Msg>)

  datatype Event =
    | Receive(at: Addr, msg: Msg, now: real)
    | Data(at: Addr, dst: Addr, own: bool, quiet: bool, ttl: nat, now: real)
    | Request(at: Addr, dst: Addr, ttl: nat)
    | LoseLink(at: Addr, nbr: Addr)
    | Expire(at: Addr, now: real)
    | Forget(at: Addr, ids: set<(Addr, nat)>)
    | Greet(at: Addr)

  function Initial(c: Config): Net {
    Net(map n | n in c.nodes :: InitialNode(n, c.limits), {})
  }

  /** The radio channel hands a frame to every node but its sender. */
  predicate Enabled(net: Net, e: Event) {
    e.at in net.nodes &&
    match e
    case Receive(at, m, _) => m in net.flight && m.from != at && (m.Rrep? ==> m.nexthop == at)
    case Request(at, dst, _) => dst in net.nodes[at].rtable
    case _ => true
  }

  function Handle(s: Node, e: Event): (Node, seq<Msg>)
    requires e.Request? ==> e.dst in s.rtable
  {
    match e
    case Receive(_, m, now) => (
      match m
      case Rreq(_, _, _, _, _, _, _, _, _) => RecvRequest(s, m, now)
      case Rrep(_, _, _, _, _, _, _, _, _, _) => RecvReply(s, m, now)
      case Rerr(_, _) => RecvError(s, m)
      case Hello(_, _) => (RecvHello(s, m, now), []))
    case Data(_, dst, own, quiet, ttl, now) => Resolve(s, dst, own, quiet, ttl, now)
    case Request(_, dst, ttl) => SendRequest(s, dst, ttl)
    case LoseLink(_, nbr) => LoseNeighbour(s, nbr)
    case Expire(_, now) => (PurgeRoutes(s, now), [])
    case Forget(_, ids) => (AomdvAgent.PurgeIds(s, ids), [])
    case Greet(_) => (s, SendHello(s))
  }

  function After(net: Net, at: Addr, r: (Node, seq<Msg>)): Net {
    Net(net.nodes[at := r.0], net.flight + set m | m in r.1)
  }

  function Apply(net: Net, e: Event): Net
    requires Enabled(net, e)
  {
    After(net, e.at, Handle(net.nodes[e.at], e))
  }

  ghost predicate Step(net: Net, net': Net) {
    exists e :: Enabled(net, e) && net' == Apply(net, e)
  }

  ghost predicate IsRun(c: Config, run: seq<Net>) {
    && run != []
    && run[0] == Initial(c)
    && forall i | 0 < i < |run| :: Step(run[i - 1], run[i])
  }

  ghost predicate Reachable(c: Config, net: Net) {
    exists run :: IsRun(c, run) && run[|run| - 1] == net
  }

  // ----- routes through the network -----

  function EntryAt(net: Net, n: Addr, d: Addr): Entry
    requires n in net.nodes
  {
    Lookup(net.nodes[n].rtable, d)
  }

  /** n stores a path to d whose next hop is `to`. */
  predicate HasPath(net: Net, n: Addr, d: Addr, to: Addr) {
    n in net.nodes && EntryAt(net, n, d).flag == Up && exists p | p in EntryAt(net, n, d).paths :: p.nexthop == to
  }

  /** The nodes visited when every node but the last picks any of its stored paths to d. */
  ghost predicate Walk(net: Net, d: Addr, w: seq<Addr>) {
    forall i | 0 <= i < |w| - 1 :: w[i] != d && HasPath(net, w[i], d, w[i + 1])
  }

  ghost predicate LoopFree(net: Net) {
    forall d: Addr, w: seq<Addr> | Walk(net, d, w) :: Distinct(w)
  }

  // ----- offers -----

  predicate Advertises(m: Msg) {
    m.Rreq? || m.Rrep? || m.Hello?
  }

  function About(m: Msg): Addr
    requires Advertises(m)
  {
    match m
    case Rreq(_, _, _, _, _, src, _, _, _) => src
    case Rrep(_, _, _, _, dst, _, _, _, _, _) => dst
    case Hello(from, _) => from
  }

  function OfferSeq(m: Msg): nat
    requires Advertises(m)
  {
    match m
    case Rreq(_, _, _, _, _, _, srcSeq, _, _) => srcSeq
    case Rrep(_, _, _, _, _, dstSeq, _, _, _, _) => dstSeq
    case Hello(_, seqno) => seqno
  }

  function OfferHops(m: Msg): nat
    requires Advertises(m)
  {
    match m
    case Rreq(_, hop, _, _, _, _, _, _, _) => hop
    case Rrep(_, _, _, hop, _, _, _, _, _, _) => hop
    case Hello(_, _) => 0
  }

  // ----- the invariant -----

  predicate Even(n: nat) {
    n > 0 && n % 2 == 0
  }

  predicate ZeroOrOdd(n: nat) {
    n == 0 || n % 2 == 1
  }

  /** The longest path there can be: one hop more than fits into a message. */
  const LONGEST: nat := INFINITY2 + 1

  /** How many paths an entry can have. A second one has at least one hop and is compared with at most INFINITY2. */
  function Room(l: Limits): nat {
    if l.maxPaths <= 1 || l.maxDiff < 1 - INFINITY2 then 1 else l.maxPaths
  }

  /** The path-list invariant of an entry, and its state machine. */
  ghost predicate EntryOk(l: Limits, e: Entry) {
    && ZeroOrOdd(e.highest)
    && Disjoint(e.paths)
    && (e.flag == Up <==> e.paths != [])
    && (e.flag == Up ==> Even(e.seqno) && |e.paths| <= Room(l))
    && (e.flag == Down ==> ZeroOrOdd(e.seqno) && (e.seqno == 0 || e.adv == INFINITY))
    && forall p | p in e.paths :: 1 <= p.hopcount <= LONGEST && p.hopcount <= e.adv
  }

  /** A node never gets a route to itself. */
  predicate SelfDown(s: Node) {
    Lookup(s.rtable, s.index).flag == Down && Lookup(s.rtable, s.index).seqno == 0
  }

  ghost predicate NodeOk(s: Node) {
    && Even(s.seqno)
    && SelfDown(s)
    && forall d | d in s.rtable :: EntryOk(s.limits, s.rtable[d])
  }

  predicate MsgOk(m: Msg) {
    && (Advertises(m) ==> Even(OfferSeq(m)) && OfferHops(m) <= INFINITY2)
    && (Advertises(m) && About(m) == m.from ==> OfferHops(m) == 0)
    && (m.Rerr? ==> forall d | d in m.unreachable :: ZeroOrOdd(m.unreachable[d]))
  }

  /** The entry is newer than the offer, or the offer repeats what it advertises, in eight bits. */
  predicate Repeats(e: Entry, seqno: nat, hops: nat) {
    e.seqno > seqno || (e.seqno == seqno && e.adv != INFINITY && U8(e.adv) == hops)
  }

  predicate OfferOk(net: Net, m: Msg)
    requires Advertises(m)
  {
    && m.from in net.nodes && About(m) in net.nodes
    && (About(m) == m.from || Repeats(EntryAt(net, m.from, About(m)), OfferSeq(m), OfferHops(m)))
  }

  ghost predicate FlightOk(net: Net) {
    forall m | m in net.flight :: MsgOk(m) && (Advertises(m) ==> OfferOk(net, m))
  }

  /** Whatever a node offers about a destination under one sequence number has one hop count. */
  ghost predicate Constant(flight: set<Msg>) {
    forall m, m' | m in flight && m' in flight && Advertises(m) && Advertises(m') && m.from == m'.from
                   && About(m) == About(m') && OfferSeq(m) == OfferSeq(m') :: OfferHops(m) == OfferHops(m')
  }

  /** Message m is the offer that the path p of an entry for d with this sequence number came from. */
  predicate Source(m: Msg, d: Addr, seqno: nat, p: Path) {
    && Advertises(m) && About(m) == d && OfferSeq(m) == seqno
    && m.from == p.nexthop && OfferHops(m) + 1 == p.hopcount
  }

  ghost predicate EntrySourced(flight: set<Msg>, d: Addr, e: Entry) {
    forall p | p in e.paths :: exists m :: m in flight && Source(m, d, e.seqno, p)
  }

  ghost predicate PathsSourced(net: Net) {
    forall n, d | n in net.nodes :: EntrySourced(net.flight, d, EntryAt(net, n, d))
  }

  ghost predicate Inv(c: Config, net: Net) {
    && net.nodes.Keys == c.nodes
    && (forall n | n in net.nodes :: net.nodes[n].index == n && net.nodes[n].limits == c.limits && NodeOk(net.nodes[n]))
    && FlightOk(net)
    && Constant(net.flight)
    && PathsSourced(net)
  }

  // ----- what one handler may do, seen from its node -----

  /** An entry only gets newer; under the same sequence number an advertisement never changes. */
  predicate EntryGrows(e: Entry, e': Entry) {
    e'.seqno > e.seqno || (e'.seqno == e.seqno && (e.adv == INFINITY || e'.adv == e.adv))
  }

  /** The entry takes an offer with these numbers. */
  predicate Takes(e: Entry, seqno: nat, hops: nat) {
    e.seqno < seqno || (e.seqno == seqno && e.adv > hops)
  }

  /** A path of the new entry was there before, or comes from an offer that was heard and taken, under a new sequence
      number or because the list had room. */
  ghost predicate PathOrigin(l: Limits, e: Entry, e': Entry, d: Addr, p: Path, heard: set<Msg>) {
    || (e.seqno == e'.seqno && exists q | q in e.paths :: q.nexthop == p.nexthop && q.hopcount == p.hopcount)
    || ((e.seqno == e'.seqno ==> |e.paths| < Room(l))
        && exists m | m in heard :: Source(m, d, e'.seqno, p) && Takes(e, e'.seqno, OfferHops(m)))
  }

  /** The advertised hop count is unset, unchanged, or newly fixed to that of a longest path. */
  ghost predicate AdvOrigin(e: Entry, e': Entry) {
    || e'.adv == INFINITY
    || (e'.seqno == e.seqno && e'.adv == e.adv)
    || ((e'.seqno > e.seqno || e.adv == INFINITY) && exists p | p in e'.paths :: p.hopcount == e'.adv)
  }

  ghost predicate EntryLegal(l: Limits, e: Entry, e': Entry, d: Addr, heard: set<Msg>) {
    && EntryOk(l, e')
    && EntryGrows(e, e')
    && AdvOrigin(e, e')
    && forall p | p in e'.paths :: PathOrigin(l, e, e', d, p, heard)
  }

  ghost predicate SentOk(s: Node, m: Msg) {
    && m.from == s.index
    && MsgOk(m)
    && (Advertises(m) && About(m) != s.index ==>
          var e := Lookup(s.rtable, About(m));
          e.seqno == OfferSeq(m) && e.adv != INFINITY && OfferHops(m) == U8(e.adv))
  }

  ghost predicate Legal(s: Node, heard: set<Msg>, r: (Node, seq<Msg>)) {
    && r.0.index == s.index && r.0.limits == s.limits && r.0.seqno >= s.seqno && Even(r.0.seqno)
    && SelfDown(r.0)
    && (forall d :: EntryLegal(s.limits, Lookup(s.rtable, d), Lookup(r.0.rtable, d), d, heard))
    && (forall m | m in r.1 :: SentOk(r.0, m))
  }
}
