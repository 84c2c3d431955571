// AODV as a protocol: any number of nodes, and a flight of messages that may be
// delivered late, more than once, in any order, or never.
module AodvNetwork {
  import opened Common
  import opened AodvTable
  import opened AodvAgent

  datatype Config = Config(nodes: set<Addr>, localRepair: bool)

  /** `flight` holds every message ever sent; what is lost is simply never received. */
  datatype Net = Net(nodes: map<Addr, Node>, flight: set<Msg>)

  datatype Event =
    | Receive(at: Addr, msg: Msg)
    | Data(at: Addr, pkt: Pkt, quiet: bool, ttl: nat)
    | Request(at: Addr, dst: Addr, ttl: nat)
    | LoseLink(at: Addr, nbr: Addr)
    | Expire(at: Addr, routes: set<Addr>)
    | Forget(at: Addr, ids: set<(Addr, nat)>)
    | Greet(at: Addr)
    | Repair(at: Addr, dst: Addr, forwards: nat, quiet: bool, ttl: nat)
    | RepairOver(at: Addr, dst: Addr)

  function Initial(nodes: set<Addr>): Net {
    Net(map n | n in nodes :: InitialNode(n), {})
  }

  /** A packet is with a node that sends it first, or that a neighbour handed it to and that passes it on:
      it did not send it first, is not its destination, and the packet's time to live has not run out. */
  predicate With(net: Net, at: Addr, pkt: Pkt) {
    && pkt.dst != at
    && if pkt.src == at then pkt.forwards == 0
       else 0 < pkt.forwards < NETWORK_DIAMETER && HandedTo(net, at, pkt)
  }

  predicate HandedTo(net: Net, at: Addr, pkt: Pkt) {
    exists m | m in net.flight :: m.Hop? && m.from != at && m.nexthop == at && Received(m.pkt) == pkt
  }

  function Received(pkt: Pkt): Pkt {
    pkt.(forwards := pkt.forwards + 1)
  }

  /** The node has sent a packet towards dst that had been received so many times. */
  predicate HasSent(net: Net, at: Addr, dst: Addr, forwards: nat) {
    exists m | m in net.flight :: m.Hop? && m.from == at && m.pkt.dst == dst && m.pkt.forwards == forwards
  }

  /** Nobody hears what it sends itself. A node repairs a route locally when it fails to send on a packet
      that has come further than it has to go. */
  predicate Enabled(c: Config, net: Net, e: Event) {
    e.at in net.nodes &&
    match e
    case Receive(at, m) => m in net.flight && m.from != at && !m.Hop? && (m.Rrep? ==> m.nexthop == at)
    case Data(at, pkt, quiet, ttl) => With(net, at, pkt) && 1 <= ttl <= NETWORK_DIAMETER
    case Request(at, dst, ttl) => dst in net.nodes[at].rtable && 1 <= ttl <= NETWORK_DIAMETER
    case Repair(at, dst, forwards, quiet, ttl) =>
      c.localRepair && dst in net.nodes[at].rtable && HasSent(net, at, dst, forwards)
      && forwards > net.nodes[at].rtable[dst].hops && 1 <= ttl <= NETWORK_DIAMETER
    case RepairOver(at, dst) => c.localRepair
    case _ => true
  }

  /** What the event does to the node where it happens, and the messages the node sends. */
  function Handle(s: Node, e: Event): (Node, seq<Msg>)
    requires e.Receive? ==> !e.msg.Hop?
    requires (e.Request? || e.Repair?) ==> e.dst in s.rtable
  {
    match e
    case Receive(_, m) => (
      match m
      case Rreq(_, _, _, _, _, _, _, _) => RecvRequest(s, m)
      case Rrep(_, _, _, _, _, _, _) => RecvReply(s, m)
      case Rerr(_, _) => RecvError(s, m)
      case Hello(from) => (RecvHello(s, from), []))
    case Data(_, pkt, quiet, ttl) => Resolve(s, pkt, quiet, ttl)
    case Request(_, dst, ttl) => SendRequest(s, dst, ttl)
    case LoseLink(_, nbr) => LoseNeighbour(s, nbr)
    case Expire(_, routes) => (PurgeRoutes(s, routes), [])
    case Forget(_, ids) => (AodvAgent.PurgeIds(s, ids), [])
    case Greet(_) => (s, [Hello(s.index)])
    case Repair(_, dst, _, quiet, ttl) => StartRepair(s, dst, quiet, ttl)
    case RepairOver(_, dst) => (RepairTimeout(s, dst), [])
  }

  function After(net: Net, at: Addr, result: (Node, seq<Msg>)): Net {
    Net(net.nodes[at := result.0], net.flight + set m | m in result.1)
  }

  function Apply(c: Config, net: Net, e: Event): Net
    requires Enabled(c, net, e)
  {
    After(net, e.at, Handle(net.nodes[e.at], e))
  }

  ghost predicate Step(c: Config, net: Net, net': Net) {
    exists e :: Enabled(c, net, e) && net' == Apply(c, net, e)
  }

  /** A run from the initial state. */
  ghost predicate IsRun(c: Config, run: seq<Net>) {
    && run != []
    && run[0] == Initial(c.nodes)
    && forall i | 0 < i < |run| :: Step(c, run[i - 1], run[i])
  }

  ghost predicate Reachable(c: Config, net: Net) {
    exists run :: IsRun(c, run) && run[|run| - 1] == net
  }

  // ----- routes through the network -----

  function KeyAt(net: Net, n: Addr, d: Addr): Key
    requires n in net.nodes
  {
    KeyOf(net.nodes[n].rtable, d)
  }

  predicate HasRoute(net: Net, n: Addr, d: Addr) {
    n in net.nodes && d in net.nodes[n].rtable && net.nodes[n].rtable[d].flag == Up
  }

  function NextHop(net: Net, n: Addr, d: Addr): Addr
    requires HasRoute(net, n, d)
  {
    net.nodes[n].rtable[d].nexthop
  }

  /** The nodes visited when every node but the last hands a packet for d to its next hop. */
  ghost predicate Walk(net: Net, d: Addr, w: seq<Addr>) {
    forall i | 0 <= i < |w| - 1 :: w[i] != d && HasRoute(net, w[i], d) && NextHop(net, w[i], d) == w[i + 1]
  }

  ghost predicate LoopFree(net: Net) {
    forall d: Addr, w: seq<Addr> | Walk(net, d, w) :: Distinct(w)
  }

  // ----- the invariant -----

  predicate NodeOk(s: Node) {
    s.seqno >= 2 && s.seqno % 2 == 0 && TableOk(s.rtable)
  }

  predicate Even(n: nat) {
    n > 0 && n % 2 == 0
  }

  predicate ZeroOrOdd(n: nat) {
    n == 0 || n % 2 == 1
  }

  /** A request has used up hop count and time to live from the same budget. */
  predicate MsgOk(m: Msg) {
    match m
    case Rreq(_, hop, _, _, _, _, srcSeq, ttl) =>
      Even(srcSeq) && 1 <= hop && 1 <= ttl && hop + ttl <= NETWORK_DIAMETER + 1
    case Rrep(_, _, _, hop, _, dstSeq, _) => Even(dstSeq) && 1 <= hop
    case Rerr(_, un) => forall d | d in un :: ZeroOrOdd(un[d])
    case _ => true
  }

  predicate Advertises(m: Msg) {
    m.Rreq? || m.Rrep?
  }

  /** The destination a request or reply teaches a route to. */
  function About(m: Msg): Addr
    requires Advertises(m)
  {
    if m.Rreq? then m.src else m.dst
  }

  /** The key its receiver would get. */
  function Offer(m: Msg): Key
    requires Advertises(m)
  {
    if m.Rreq? then Key(m.srcSeq, m.hop) else Key(m.dstSeq, m.hop)
  }

  /** The sender is the destination itself, or its own route is better than what it offers. */
  predicate Dominates(t: Table, m: Msg)
    requires Advertises(m)
  {
    About(m) == m.from || Better(KeyOf(t, About(m)), Offer(m))
  }

  /** How many hops of an offer are not accounted for by nodes that can be told apart: a request may go to and
      fro between two nodes that forget it, up to its time to live. */
  const SLACK: nat := NETWORK_DIAMETER - 2

  /** The offer k about d can be traced back over the distinct nodes p, nearest first: each still knows at least as
      good a route as the one it passed on. */
  ghost predicate Traced(net: Net, d: Addr, k: Key, p: seq<Addr>) {
    && Distinct(p)
    && k.hops <= |p| + SLACK
    && forall i | 0 <= i < |p| :: p[i] in net.nodes && CloserThan(KeyAt(net, p[i], d), k, i + 1)
  }

  /** key is as new as k and `steps` hops closer, or newer. */
  predicate CloserThan(key: Key, k: Key, steps: nat) {
    key.seqno > k.seqno || (key.seqno == k.seqno && key.hops + steps <= k.hops)
  }

  /** A request that was relayed twice or more was passed to its sender by another node that knows its source. */
  ghost predicate Relayed(net: Net, m: Msg)
    requires m.Rreq?
  {
    m.hop >= 3 ==> exists g :: g in net.nodes && g != m.from && CloserThan(KeyAt(net, g, m.src), Offer(m), 2)
  }

  ghost predicate FlightOk(net: Net) {
    forall m | m in net.flight ::
      && MsgOk(m)
      && m.from in net.nodes
      && (Advertises(m) ==> OfferOk(net, m))
      && (m.Rreq? ==> (m.src == m.from ==> m.hop == 1) && Relayed(net, m))
  }

  ghost predicate OfferOk(net: Net, m: Msg)
    requires Advertises(m) && m.from in net.nodes
  {
    && About(m) in net.nodes
    && Dominates(net.nodes[m.from].rtable, m)
    && exists p :: Traced(net, About(m), Offer(m), p)
  }

  /** Every next hop is the destination, or knows a strictly better route. */
  ghost predicate RouteOk(net: Net, n: Addr, d: Addr)
    requires HasRoute(net, n, d)
  {
    var nh := NextHop(net, n, d);
    && d in net.nodes && nh in net.nodes
    && (nh == d || Better(KeyAt(net, nh, d), KeyAt(net, n, d)))
  }

  /** The node's own route, seen as an offer, is traced back starting with the node itself. */
  ghost predicate RouteTraced(net: Net, n: Addr, d: Addr)
    requires HasRoute(net, n, d)
  {
    var k := KeyAt(net, n, d);
    exists p :: p != [] && p[0] == n && Traced(net, d, Key(k.seqno, k.hops + 1), p)
  }

  ghost predicate RoutesOk(net: Net) {
    forall n, d | HasRoute(net, n, d) :: RouteOk(net, n, d) && RouteTraced(net, n, d)
  }

  /** A packet that was received is not with its source or destination, and one received twice was with a
      further node before. */
  ghost predicate HopOk(net: Net, m: Msg)
    requires m.Hop?
  {
    var p := m.pkt;
    && p.src in net.nodes && p.dst in net.nodes && m.from in net.nodes && p.src != p.dst && m.from != p.dst
    && (p.forwards >= 1 ==> m.from != p.src)
    && (p.forwards >= 2 ==> exists x :: x in net.nodes && x != m.from && x != p.src && x != p.dst)
  }

  ghost predicate HopsOk(net: Net) {
    forall m | m in net.flight && m.Hop? :: HopOk(net, m)
  }

  ghost predicate RoutingOk(c: Config, net: Net) {
    && net.nodes.Keys == c.nodes
    && (forall n | n in net.nodes :: net.nodes[n].index == n && NodeOk(net.nodes[n]))
    && FlightOk(net)
    && RoutesOk(net)
  }

  ghost predicate Inv(c: Config, net: Net) {
    RoutingOk(c, net) && HopsOk(net)
  }

  // ----- what one handler may do, seen from its node -----

  predicate Improves(s: Node, s': Node) {
    s'.index == s.index && s'.seqno >= s.seqno
  }

  ghost predicate KeysImprove(t: Table, t': Table) {
    forall d :: AtLeast(KeyOf(t', d), KeyOf(t, d))
  }

  predicate SameRoute(e: Entry, e': Entry) {
    e.seqno == e'.seqno && e.hops == e'.hops && e.nexthop == e'.nexthop && e.flag == e'.flag
  }

  /** The new route of s' to d is the offer of message m, and beats what s knew. */
  predicate Learned(s: Node, s': Node, d: Addr, m: Msg)
    requires d in s'.rtable
  {
    && Advertises(m) && About(m) == d
    && s'.rtable[d].nexthop == m.from
    && KeyOf(s'.rtable, d) == Offer(m)
    && Better(Offer(m), KeyOf(s.rtable, d))
  }

  predicate KeptOrLearned(s: Node, s': Node, d: Addr, heard: set<Msg>)
    requires d in s'.rtable
  {
    (d in s.rtable && SameRoute(s.rtable[d], s'.rtable[d])) || exists m | m in heard :: Learned(s, s', d, m)
  }

  /** A sent reply comes from the destination, or repeats an own route one hop further. */
  predicate ReplyOk(s: Node, m: Msg)
    requires m.Rrep?
  {
    || (m.dst == s.index && m.hop == 1)
    || (m.dst in s.rtable && s.rtable[m.dst].flag == Up
        && Offer(m) == Key(s.rtable[m.dst].seqno, s.rtable[m.dst].hops + 1))
  }

  /** A sent request is the node's own, or repeats one it heard one hop further. */
  predicate RequestOk(s: Node, m: Msg, heard: set<Msg>)
    requires m.Rreq?
  {
    || (m.src == s.index && m.hop == 1)
    || (m.src != s.index && exists rq | rq in heard ::
          rq.Rreq? && rq.src == m.src && rq.srcSeq == m.srcSeq && rq.hop + 1 == m.hop)
  }

  predicate SentOk(s: Node, m: Msg, heard: set<Msg>) {
    && m.from == s.index
    && MsgOk(m)
    && (Advertises(m) ==> Dominates(s.rtable, m))
    && (m.Rrep? ==> ReplyOk(s, m))
    && (m.Rreq? ==> RequestOk(s, m, heard))
  }

  ghost predicate Legal(s: Node, heard: set<Msg>, r: (Node, seq<Msg>)) {
    && Improves(s, r.0)
    && NodeOk(r.0)
    && KeysImprove(s.rtable, r.0.rtable)
    && (forall d | d in r.0.rtable && r.0.rtable[d].flag == Up :: KeptOrLearned(s, r.0, d, heard))
    && (forall m | m in r.1 :: SentOk(r.0, m, heard))
  }

  /** The node right after it heard a request: only the reverse route may have changed. */
  function Heard(s: Node, rq: Msg): Node
    requires rq.Rreq?
  {
    s.(bcache := s.bcache + {(rq.src, rq.bid)},
       rtable := s.rtable[rq.src := ReverseRoute(Lookup(s.rtable, rq.src), rq)])
  }

  lemma HeardLegal(s: Node, rq: Msg)
    requires NodeOk(s) && rq.Rreq? && MsgOk(rq)
    ensures Legal(s, {rq}, (Heard(s, rq), []))
    ensures AtLeast(KeyOf(Heard(s, rq).rtable, rq.src), Offer(rq))
  {
  }

  predicate SameRoutes(t: Table, t': Table) {
    t.Keys == t'.Keys && forall d | d in t :: SameRoute(t[d], t'[d])
  }

  lemma PrecursorsKeepRoutes(t: Table, src: Addr, dst: Addr)
    requires src in t && dst in t
    ensures SameRoutes(t, WithPrecursors(t, src, dst))
  {
  }

  /** Later changes that leave the routes alone, and messages that the node may send, keep a step legal. */
  lemma ThenSend(s: Node, heard: set<Msg>, s1: Node, s2: Node, out: seq<Msg>)
    requires Legal(s, heard, (s1, []))
    requires Improves(s1, s2) && s2.seqno % 2 == 0 && SameRoutes(s1.rtable, s2.rtable)
    requires forall m | m in out :: SentOk(s2, m, heard)
    ensures Legal(s, heard, (s2, out))
  {
    assert KeysImprove(s.rtable, s2.rtable) by {
      forall d ensures AtLeast(KeyOf(s2.rtable, d), KeyOf(s.rtable, d)) {
        assert AtLeast(KeyOf(s1.rtable, d), KeyOf(s.rtable, d));
      }
    }
    forall d | d in s2.rtable && s2.rtable[d].flag == Up ensures KeptOrLearned(s, s2, d, heard) {
      assert KeptOrLearned(s, s1, d, heard);
      if m :| m in heard && Learned(s, s1, d, m) {
        assert Learned(s, s2, d, m);
      }
    }
  }

  /** The destination answers. */
  lemma DestLegal(s: Node, rq: Msg, s1: Node)
    requires NodeOk(s) && rq.Rreq? && MsgOk(rq) && rq.src != s.index && (rq.src, rq.bid) !in s.bcache
    requires s1 == Heard(s, rq) && Legal(s, {rq}, (s1, [])) && rq.dst == s.index
    ensures Legal(s, {rq}, RecvRequest(s, rq))
  {
    var (s2, out) := RecvRequest(s, rq);
    ThenSend(s, {rq}, s1, s2, out);
  }

  /** A node with a fresh enough route answers. */
  lemma RouteLegal(s: Node, rq: Msg, s1: Node)
    requires NodeOk(s) && rq.Rreq? && MsgOk(rq) && rq.src != s.index && (rq.src, rq.bid) !in s.bcache
    requires s1 == Heard(s, rq) && Legal(s, {rq}, (s1, [])) && rq.dst != s.index && CanAnswer(s1.rtable, rq)
    ensures Legal(s, {rq}, RecvRequest(s, rq))
  {
    var (s2, out) := RecvRequest(s, rq);
    PrecursorsKeepRoutes(s1.rtable, rq.src, rq.dst);
    assert EntryOk(s1.rtable[rq.dst]);
    ThenSend(s, {rq}, s1, s2, out);
  }

  /** Any other node passes the request on. */
  lemma PassLegal(s: Node, rq: Msg, s1: Node)
    requires NodeOk(s) && rq.Rreq? && MsgOk(rq) && rq.src != s.index && (rq.src, rq.bid) !in s.bcache
    requires s1 == Heard(s, rq) && Legal(s, {rq}, (s1, [])) && rq.dst != s.index && !CanAnswer(s1.rtable, rq)
    requires AtLeast(KeyOf(s1.rtable, rq.src), Offer(rq))
    ensures Legal(s, {rq}, RecvRequest(s, rq))
  {
    var (s2, out) := RecvRequest(s, rq);
    assert rq in {rq};
    ThenSend(s, {rq}, s1, s2, out);
  }

  lemma RequestLegal(s: Node, rq: Msg)
    requires NodeOk(s) && rq.Rreq? && MsgOk(rq)
    ensures Legal(s, {rq}, RecvRequest(s, rq))
  {
    if rq.src != s.index && (rq.src, rq.bid) !in s.bcache {
      var s1 := Heard(s, rq);
      HeardLegal(s, rq);
      if rq.dst == s.index {
        DestLegal(s, rq, s1);
      } else if CanAnswer(s1.rtable, rq) {
        RouteLegal(s, rq, s1);
      } else {
        PassLegal(s, rq, s1);
      }
    }
  }

  lemma ReplyLegal(s: Node, rp: Msg)
    requires NodeOk(s) && rp.Rrep? && MsgOk(rp)
    requires Accepts(Lookup(s.rtable, rp.dst), rp) ==> rp.hop < INFINITY2
    ensures Legal(s, {rp}, RecvReply(s, rp))
  {
  }

  lemma ErrorLegal(s: Node, er: Msg)
    requires NodeOk(s) && er.Rerr? && MsgOk(er)
    ensures Legal(s, {er}, RecvError(s, er))
  {
  }

  predicate Reported(out: seq<Msg>, d: Addr) {
    out != [] && out[0].Rerr? && d in out[0].unreachable
  }

  /** The report lists exactly the routes that the error takes down and that somebody upstream uses. */
  lemma ErrorReports(s: Node, er: Msg, d: Addr)
    requires NodeOk(s) && er.Rerr? && d in s.rtable
    ensures var (s', out) := RecvError(s, er);
            Reported(out, d) <==> (s.rtable[d].flag == Up && s'.rtable[d].flag == Down && s.rtable[d].precursors != {})
  {
    assert EntryOk(s.rtable[d]);
    var down := Propagated(s.rtable, er);
    assert d in down <==> ErrorHits(s.rtable, d, er) && s.rtable[d].precursors != {};
    assert down == map[] ==> d !in down;
  }

  lemma LinkLegal(s: Node, id: Addr)
    requires NodeOk(s)
    ensures Legal(s, {}, LoseNeighbour(s, id))
  {
  }

  lemma SendLegal(s: Node, dst: Addr, ttl: nat)
    requires NodeOk(s) && dst in s.rtable && 1 <= ttl <= NETWORK_DIAMETER
    ensures Legal(s, {}, SendRequest(s, dst, ttl))
  {
  }

  lemma ResolveLegal(s: Node, pkt: Pkt, quiet: bool, ttl: nat)
    requires NodeOk(s) && 1 <= ttl <= NETWORK_DIAMETER
    ensures Legal(s, {}, Resolve(s, pkt, quiet, ttl))
  {
  }

  lemma PurgeLegal(s: Node, routes: set<Addr>)
    requires NodeOk(s)
    ensures Legal(s, {}, (PurgeRoutes(s, routes), []))
  {
  }

  lemma OthersLegal(s: Node, e: Event)
    requires NodeOk(s) && (e.Forget? || e.Greet? || e.RepairOver?)
    ensures Legal(s, {}, Handle(s, e))
  {
  }
}
