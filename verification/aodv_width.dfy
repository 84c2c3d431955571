// How wide a network AODV can stand: hop counts travel in eight bits. On 228 nodes or more a reply can come back with
// hop count zero, and next hops lead in a circle even without local repair; on fewer this cannot happen.
module AodvWidth {
  import opened Common
  import opened AodvTable
  import opened AodvAgent
  import opened AodvNetwork
  import opened AodvSafety
  import opened AodvDiscovery
  import opened AodvRepair

  /** The largest hop count that still stands for a route. */
  const LAST: nat := INFINITY2 - 1

  /** The first node of the chain of answers, behind d itself at hop count 31 and a at 30. */
  const FIRST: nat := NETWORK_DIAMETER + 2

  /** The destination d, two relays, the node a, the nodes with hop counts FIRST to LAST, and the node w. */
  ghost predicate Cast(c: Config, ns: seq<Addr>) {
    |ns| == MAX_NODES + 1 && Distinct(ns) && forall i | 0 <= i < |ns| :: ns[i] in c.nodes
  }

  function Dest(ns: seq<Addr>): Addr
    requires |ns| == MAX_NODES + 1
  {
    ns[0]
  }

  /** Who sends d's request on with hop count h. */
  function Relayer(ns: seq<Addr>, h: nat): Addr
    requires |ns| == MAX_NODES + 1
  {
    if h % 2 == 0 then ns[1] else ns[2]
  }

  /** The node that will learn a route of k hops. */
  function Link(ns: seq<Addr>, k: nat): Addr
    requires |ns| == MAX_NODES + 1 && FIRST <= k <= LAST
  {
    ns[k - FIRST + 4]
  }

  function Prev(ns: seq<Addr>, k: nat): Addr
    requires |ns| == MAX_NODES + 1 && FIRST <= k <= LAST
  {
    if k == FIRST then Dest(ns) else Link(ns, k - 1)
  }

  function Wrapper(ns: seq<Addr>): Addr
    requires |ns| == MAX_NODES + 1
  {
    ns[MAX_NODES]
  }

  function Query(x: Addr, bid: nat, d: Addr, seqno: nat): Msg {
    Rreq(x, 1, bid, d, 0, x, seqno, NETWORK_DIAMETER)
  }

  function Asker(x: Addr, d: Addr): Node {
    Node(x, 4, 2, map[d := FreshEntry], {}, {})
  }

  predicate Routes(s: Node, self: Addr, d: Addr, hops: nat, nexthop: Addr) {
    && s.index == self && d in s.rtable && s.rtable[d].flag == Up && s.rtable[d].seqno == 4
    && s.rtable[d].hops == hops && s.rtable[d].nexthop == nexthop
  }

  ghost predicate Fresh(net: Net, ns: seq<Addr>, from: nat) {
    forall i | from <= i < |ns| :: ns[i] in net.nodes && net.nodes[ns[i]] == InitialNode(ns[i])
  }

  /** What one event changes. */
  ghost predicate Moved(net: Net, net': Net, at: Addr, s: Node, m: Msg) {
    net'.nodes == net.nodes[at := s] && net.flight <= net'.flight && m in net'.flight
  }

  lemma Ask(c: Config, net: Net, x: Addr, d: Addr) returns (net': Net)
    requires Reachable(c, net) && x in net.nodes && net.nodes[x] == InitialNode(x) && x != d
    ensures Reachable(c, net') && Moved(net, net', x, Asker(x, d), Query(x, 1, d, 4))
  {
    var e := Data(x, Pkt(x, d, 0), false, NETWORK_DIAMETER);
    StepReachable(c, net, e);
    net' := Apply(c, net, e);
    assert Resolve(InitialNode(x), Pkt(x, d, 0), false, NETWORK_DIAMETER) == (Asker(x, d), [Query(x, 1, d, 4)]);
  }

  // ----- a request of d goes to and fro between two relays -----

  predicate Relays(s: Node, self: Addr, d: Addr) {
    s.index == self && s.rtable.Keys <= {d}
  }

  function Flood(ns: seq<Addr>, h: nat): Msg
    requires |ns| == MAX_NODES + 1 && 2 <= h <= NETWORK_DIAMETER
  {
    Rreq(Relayer(ns, h), h, 1, Wrapper(ns), 0, Dest(ns), 4, NETWORK_DIAMETER + 1 - h)
  }

  ghost predicate Flooding(c: Config, net: Net, ns: seq<Addr>, h: nat)
    requires Cast(c, ns) && 2 <= h <= NETWORK_DIAMETER
  {
    && Reachable(c, net) && net.nodes.Keys == c.nodes
    && net.nodes[Dest(ns)] == Asker(Dest(ns), Wrapper(ns))
    && Relays(net.nodes[ns[1]], ns[1], Dest(ns)) && Relays(net.nodes[ns[2]], ns[2], Dest(ns))
    && Flood(ns, h) in net.flight
    && Fresh(net, ns, 3)
  }

  /** A relay that has forgotten the request passes it on again. */
  lemma PassOn(c: Config, net: Net, x: Addr, m: Msg) returns (net': Net, s: Node)
    requires Reachable(c, net) && x in net.nodes && m in net.flight && m.Rreq? && m.from != x
    requires Relays(net.nodes[x], x, m.src) && m.src != x && m.dst != x && m.dst != m.src
    requires 2 <= m.ttl && m.hop < NETWORK_DIAMETER
    ensures Reachable(c, net') && Relays(s, x, m.src)
    ensures Moved(net, net', x, s, Rreq(x, m.hop + 1, m.bid, m.dst, m.dstSeq, m.src, m.srcSeq, m.ttl - 1))
  {
    var f := Forget(x, {(m.src, m.bid)});
    StepReachable(c, net, f);
    var n1 := Apply(c, net, f);
    var e := Receive(x, m);
    StepReachable(c, n1, e);
    net' := Apply(c, n1, e);
    s := RecvRequest(n1.nodes[x], m).0;
  }

  lemma FloodStarts(c: Config, ns: seq<Addr>) returns (net: Net)
    requires Cast(c, ns)
    ensures Flooding(c, net, ns, 2)
  {
    InitialReachable(c);
    var d, w := Dest(ns), Wrapper(ns);
    var n1 := Ask(c, Initial(c.nodes), d, w);
    var s;
    net, s := PassOn(c, n1, ns[1], Query(d, 1, w, 4));
  }

  lemma FloodGoesOn(c: Config, net: Net, ns: seq<Addr>, h: nat) returns (net': Net)
    requires Cast(c, ns) && 2 <= h < NETWORK_DIAMETER && Flooding(c, net, ns, h)
    ensures Flooding(c, net', ns, h + 1)
  {
    var s;
    net', s := PassOn(c, net, Relayer(ns, h + 1), Flood(ns, h));
  }

  lemma {:induction false} FloodReaches(c: Config, ns: seq<Addr>, h: nat) returns (net: Net)
    requires Cast(c, ns) && 2 <= h <= NETWORK_DIAMETER
    ensures Flooding(c, net, ns, h)
  {
    if h == 2 {
      net := FloodStarts(c, ns);
    } else {
      var n := FloodReaches(c, ns, h - 1);
      net := FloodGoesOn(c, n, ns, h - 1);
    }
  }

  function Hearer(ns: seq<Addr>): Node
    requires |ns| == MAX_NODES + 1
  {
    Node(ns[3], 2, 1, map[Dest(ns) := RouteUp(4, NETWORK_DIAMETER, ns[1], {})], {(Dest(ns), 1)}, {})
  }

  /** a hears of d over thirty hops, and nobody else of those that follow has heard anything. */
  ghost predicate Heard30(c: Config, net: Net, ns: seq<Addr>)
    requires Cast(c, ns)
  {
    && Reachable(c, net) && net.nodes.Keys == c.nodes
    && net.nodes[Dest(ns)] == Asker(Dest(ns), Wrapper(ns))
    && net.nodes[ns[3]] == Hearer(ns)
    && Fresh(net, ns, 4)
  }

  lemma FloodEnds(c: Config, ns: seq<Addr>) returns (net: Net)
    requires Cast(c, ns)
    ensures Heard30(c, net, ns)
  {
    var n := FloodReaches(c, ns, NETWORK_DIAMETER);
    var e := Receive(ns[3], Flood(ns, NETWORK_DIAMETER));
    StepReachable(c, n, e);
    net := Apply(c, n, e);
    var s := RecvRequest(InitialNode(ns[3]), Flood(ns, NETWORK_DIAMETER)).0;
    assert s.rtable == Hearer(ns).rtable && s.bcache == {(Dest(ns), 1)};
  }

  // ----- d relays an answer about itself -----

  /** The node q asks for d and, later, for w. */
  function Asker2(q: Addr, d: Addr, w: Addr): Node {
    Node(q, 6, 3, map[d := FreshEntry, w := FreshEntry], {}, {})
  }

  ghost predicate Asked2(c: Config, net: Net, ns: seq<Addr>, d: Node, a: Node)
    requires Cast(c, ns)
  {
    var q := Link(ns, FIRST);
    && Reachable(c, net) && net.nodes.Keys == c.nodes
    && net.nodes[Dest(ns)] == d && net.nodes[ns[3]] == a
    && net.nodes[q] == Asker2(q, Dest(ns), Wrapper(ns))
    && Query(q, 1, Dest(ns), 4) in net.flight
    && Fresh(net, ns, 5)
  }

  lemma AskTwice(c: Config, ns: seq<Addr>) returns (net: Net)
    requires Cast(c, ns)
    ensures Asked2(c, net, ns, Asker(Dest(ns), Wrapper(ns)), Hearer(ns))
    ensures Query(Link(ns, FIRST), 2, Wrapper(ns), 6) in net.flight
  {
    var d, w, q := Dest(ns), Wrapper(ns), Link(ns, FIRST);
    var n0 := FloodEnds(c, ns);
    var n1 := Ask(c, n0, q, d);
    var e := Data(q, Pkt(q, w, 0), false, NETWORK_DIAMETER);
    StepReachable(c, n1, e);
    net := Apply(c, n1, e);
    assert Resolve(Asker(q, d), e.pkt, false, NETWORK_DIAMETER) == (Asker2(q, d, w), [Query(q, 2, w, 6)]);
  }

  function Dest1(d: Addr, w: Addr, q: Addr): Node {
    Node(d, 4, 2, map[w := FreshEntry, q := RouteUp(6, 1, q, {})], {(q, 2)}, {})
  }

  function Hearer1(ns: seq<Addr>): Node
    requires |ns| == MAX_NODES + 1
  {
    var d, q := Dest(ns), Link(ns, FIRST);
    Node(ns[3], 2, 1, map[d := RouteUp(4, NETWORK_DIAMETER, ns[1], {}), q := RouteUp(6, 2, d, {})],
         {(d, 1), (q, 2)}, {})
  }

  lemma OnlyRelays(d: Addr, w: Addr, q: Addr)
    requires d != w && d != q && w != q
    ensures RecvRequest(Asker(d, w), Query(q, 2, w, 6)) ==
            (Dest1(d, w, q), [Rreq(d, 2, 2, w, 0, q, 6, NETWORK_DIAMETER - 1)])
  {
    var s := RecvRequest(Asker(d, w), Query(q, 2, w, 6)).0;
    assert s.rtable == Dest1(d, w, q).rtable;
    assert s.bcache == {(q, 2)};
  }

  /** The later request reaches a over d, so that a's way back to q leads over d. */
  lemma OverDest(c: Config, ns: seq<Addr>) returns (net: Net)
    requires Cast(c, ns)
    ensures Asked2(c, net, ns, Dest1(Dest(ns), Wrapper(ns), Link(ns, FIRST)), Hearer1(ns))
  {
    var d, w, q, a := Dest(ns), Wrapper(ns), Link(ns, FIRST), ns[3];
    var n0 := AskTwice(c, ns);
    var e := Receive(d, Query(q, 2, w, 6));
    StepReachable(c, n0, e);
    var n1 := Apply(c, n0, e);
    var passed := Rreq(d, 2, 2, w, 0, q, 6, NETWORK_DIAMETER - 1);
    OnlyRelays(d, w, q);
    e := Receive(a, passed);
    StepReachable(c, n1, e);
    net := Apply(c, n1, e);
    var s := RecvRequest(Hearer(ns), passed).0;
    assert s.rtable == Hearer1(ns).rtable && s.bcache == {(d, 1), (q, 2)};
  }

  /** The first request, which a hears only now, is answered over d. */
  lemma AnsweredOverDest(c: Config, ns: seq<Addr>) returns (net: Net, s: Node)
    requires Cast(c, ns)
    ensures Asked2(c, net, ns, Dest1(Dest(ns), Wrapper(ns), Link(ns, FIRST)), s)
    ensures Rrep(ns[3], Dest(ns), Link(ns, FIRST), FIRST - 1, Dest(ns), 4, NETWORK_DIAMETER) in net.flight
  {
    var d, q, a := Dest(ns), Link(ns, FIRST), ns[3];
    var n0 := OverDest(c, ns);
    var e := Receive(a, Query(q, 1, d, 4));
    StepReachable(c, n0, e);
    net := Apply(c, n0, e);
    s := RecvRequest(Hearer1(ns), e.msg).0;
    assert RecvRequest(Hearer1(ns), e.msg).1 == [Rrep(a, d, q, FIRST - 1, d, 4, NETWORK_DIAMETER)];
  }

  /** The nodes up to k have learned routes of up to k hops, each from the one before. */
  ghost predicate Chain(c: Config, net: Net, ns: seq<Addr>, k: nat)
    requires Cast(c, ns) && FIRST <= k <= LAST
  {
    var d, x := Dest(ns), Link(ns, k);
    && Reachable(c, net) && net.nodes.Keys == c.nodes
    && Routes(net.nodes[x], x, d, k, Prev(ns, k))
    && net.nodes[x].bcache == {} && net.nodes[x].rtable.Keys <= {d, Wrapper(ns)}
    && Query(x, 1, d, 4) in net.flight
    && (k > FIRST ==>
          var z := Link(ns, k - 1);
          Routes(net.nodes[z], z, d, k - 1, Prev(ns, k - 1)) && Query(z, 1, d, 4) in net.flight)
    && Fresh(net, ns, k - FIRST + 5)
  }

  /** d takes the answer about itself and passes it on. */
  lemma Begin(c: Config, ns: seq<Addr>) returns (net: Net)
    requires Cast(c, ns)
    ensures Chain(c, net, ns, FIRST)
  {
    var d, w, q := Dest(ns), Wrapper(ns), Link(ns, FIRST);
    var n0, s := AnsweredOverDest(c, ns);
    var e := Receive(d, Rrep(ns[3], d, q, FIRST - 1, d, 4, NETWORK_DIAMETER));
    StepReachable(c, n0, e);
    var n1 := Apply(c, n0, e);
    var passed := Rrep(d, q, q, FIRST, d, 4, NETWORK_DIAMETER - 1);
    assert RecvReply(Dest1(d, w, q), e.msg).1 == [passed];
    e := Receive(q, passed);
    StepReachable(c, n1, e);
    net := Apply(c, n1, e);
    assert n1.nodes[q] == Asker2(q, d, w);
    assert net.nodes[q] == RecvReply(Asker2(q, d, w), passed).0;
  }

  // ----- answers, each one hop longer -----

  /** A node with a route answers with one hop more. */
  lemma Answer(c: Config, net: Net, y: Addr, d: Addr, hops: nat, nexthop: Addr, m: Msg) returns (net': Net, s: Node)
    requires Reachable(c, net) && y in net.nodes && Routes(net.nodes[y], y, d, hops, nexthop) && hops <= LAST && d != y
    requires m in net.flight && m.Rreq? && m.from != y && m.dst == d && m.dstSeq == 0
    requires m.src != y && m.src != d && m.srcSeq > 0
    requires (m.src, m.bid) !in net.nodes[y].bcache && m.src !in net.nodes[y].rtable
    ensures Reachable(c, net') && Routes(s, y, d, hops, nexthop)
    ensures Moved(net, net', y, s, Rrep(y, m.from, m.src, U8(hops + 1), d, 4, NETWORK_DIAMETER))
  {
    var e := Receive(y, m);
    StepReachable(c, net, e);
    net' := Apply(c, net, e);
    s := RecvRequest(net.nodes[y], m).0;
  }

  function Learner(x: Addr, d: Addr, hops: nat, nexthop: Addr): Node {
    Node(x, 4, 2, map[d := RouteUp(4, hops, nexthop, {})], {}, {})
  }

  /** A node that asked takes the answer. */
  lemma Take(c: Config, net: Net, x: Addr, d: Addr, m: Msg) returns (net': Net)
    requires Reachable(c, net) && x in net.nodes && net.nodes[x] == Asker(x, d)
    requires m in net.flight && m.Rrep? && m.from != x && m.nexthop == x && m.ipdst == x && m.dst == d && m.dstSeq == 4
    ensures Reachable(c, net') && net'.nodes == net.nodes[x := Learner(x, d, m.hop, m.from)]
            && net.flight <= net'.flight
  {
    var e := Receive(x, m);
    StepReachable(c, net, e);
    net' := Apply(c, net, e);
    assert RecvReply(Asker(x, d), m).0.rtable == map[d := RouteUp(4, m.hop, m.from, {})];
  }

  lemma Extend(c: Config, net: Net, ns: seq<Addr>, k: nat) returns (net': Net)
    requires Cast(c, ns) && FIRST <= k < LAST && Chain(c, net, ns, k)
    ensures Chain(c, net', ns, k + 1)
  {
    var d, y, x := Dest(ns), Link(ns, k), Link(ns, k + 1);
    var n1 := Ask(c, net, x, d);
    assert n1.nodes[y] == net.nodes[y];
    var n2, s := Answer(c, n1, y, d, k, Prev(ns, k), Query(x, 1, d, 4));
    net' := Take(c, n2, x, d, Rrep(y, x, x, k + 1, d, 4, NETWORK_DIAMETER));
    assert net'.nodes[y] == s && net'.nodes[x] == Learner(x, d, k + 1, y);
  }

  lemma {:induction false} Build(c: Config, ns: seq<Addr>, k: nat) returns (net: Net)
    requires Cast(c, ns) && FIRST <= k <= LAST
    ensures Chain(c, net, ns, k)
  {
    if k == FIRST {
      net := Begin(c, ns);
    } else {
      var n := Build(c, ns, k - 1);
      net := Extend(c, n, ns, k - 1);
    }
  }

  // ----- the hop count wraps -----

  /** The node w relays an old request of the last node but one, and its answer of 255 hops as one of none. */
  lemma Wrap(c: Config, ns: seq<Addr>) returns (net: Net)
    requires Cast(c, ns)
    ensures Reachable(c, net) && net.nodes.Keys == c.nodes
    ensures var d, z, y, w := Dest(ns), Link(ns, LAST - 1), Link(ns, LAST), Wrapper(ns);
            && Routes(net.nodes[z], z, d, LAST - 1, Prev(ns, LAST - 1))
            && Routes(net.nodes[y], y, d, LAST, z) && Routes(net.nodes[w], w, d, INFINITY2, y)
            && Rrep(w, z, z, 0, d, 4, NETWORK_DIAMETER - 1) in net.flight
  {
    var d, z, y, w := Dest(ns), Link(ns, LAST - 1), Link(ns, LAST), Wrapper(ns);
    var n0 := Build(c, ns, LAST);
    var e := Receive(w, Query(z, 1, d, 4));
    StepReachable(c, n0, e);
    var n1 := Apply(c, n0, e);
    var passed := Rreq(w, 2, 1, d, 0, z, 4, NETWORK_DIAMETER - 1);
    Pass(w, z, d);
    assert n1.nodes[y] == n0.nodes[y] && passed in n1.flight;
    var n2, s := Answer(c, n1, y, d, LAST, z, passed);
    var rp := Rrep(y, w, z, INFINITY2, d, 4, NETWORK_DIAMETER);
    e := Receive(w, rp);
    StepReachable(c, n2, e);
    net := Apply(c, n2, e);
    Relay(w, z, y, d, rp);
    assert n2.nodes[z] == n0.nodes[z] && net.nodes[y] == s;
  }

  function Relaying(w: Addr, z: Addr): Node {
    Node(w, 2, 1, map[z := RouteUp(4, 1, z, {})], {(z, 1)}, {})
  }

  lemma Pass(w: Addr, z: Addr, d: Addr)
    requires w != z && z != d && w != d
    ensures RecvRequest(InitialNode(w), Query(z, 1, d, 4)) ==
            (Relaying(w, z), [Rreq(w, 2, 1, d, 0, z, 4, NETWORK_DIAMETER - 1)])
  {
    var r := RecvRequest(InitialNode(w), Query(z, 1, d, 4)).0;
    assert r.rtable == map[z := RouteUp(4, 1, z, {})];
    assert r.bcache == {(z, 1)};
  }

  lemma Relay(w: Addr, z: Addr, y: Addr, d: Addr, rp: Msg)
    requires w != z && z != d && w != d && rp == Rrep(y, w, z, INFINITY2, d, 4, NETWORK_DIAMETER)
    ensures var r := RecvReply(Relaying(w, z), rp);
            Routes(r.0, w, d, INFINITY2, y) && r.1 == [Rrep(w, z, z, 0, d, 4, NETWORK_DIAMETER - 1)]
  {
  }

  /** The last node but one takes the wrapped answer, and three nodes point at each other in turn. */
  lemma WideLoops(c: Config, ns: seq<Addr>) returns (net: Net)
    requires Cast(c, ns)
    ensures Reachable(c, net) && !LoopFree(net)
  {
    var d, z, y, w := Dest(ns), Link(ns, LAST - 1), Link(ns, LAST), Wrapper(ns);
    var n := Wrap(c, ns);
    var e := Receive(z, Rrep(w, z, z, 0, d, 4, NETWORK_DIAMETER - 1));
    StepReachable(c, n, e);
    net := Apply(c, n, e);
    assert Routes(net.nodes[z], z, d, 0, w);
    assert net.nodes[y] == n.nodes[y] && net.nodes[w] == n.nodes[w];
    var r := [z, w, y, z];
    assert Walk(net, d, r);
    assert r[0] == r[3];
  }

  lemma TooWide(c: Config) returns (net: Net)
    requires |c.nodes| > MAX_NODES
    ensures Reachable(c, net) && !LoopFree(net)
  {
    var ns := Listing(c.nodes, MAX_NODES + 1);
    net := WideLoops(c, ns);
  }

  lemma RepairTooFar(c: Config) returns (net: Net)
    requires c.localRepair && |c.nodes| > MAX_REPAIR_NODES
    ensures Reachable(c, net) && !LoopFree(net)
  {
    var ns := Listing(c.nodes, 4);
    net := RepairLoops(c, ns[0], ns[1], ns[2], ns[3]);
  }

  /** AODV is loop free in every run exactly on networks of at most 227 nodes, with local repair at most 3. */
  lemma LoopFreeIff(c: Config)
    ensures (forall net | Reachable(c, net) :: LoopFree(net))
            <==> |c.nodes| <= 227 && (c.localRepair ==> |c.nodes| <= 3)
  {
    if Safe(c) {
      forall net | Reachable(c, net) ensures LoopFree(net) {
        LoopFreedom(c, net);
      }
    } else if |c.nodes| > MAX_NODES {
      var net := TooWide(c);
    } else {
      var net := RepairTooFar(c);
    }
  }

  // ----- the handlers' assertions -----

  /** The next purge finds the route of 255 hops that w took up as one without a hop count. */
  lemma PurgeFails(c: Config) returns (net: Net, e: Event)
    requires |c.nodes| > MAX_NODES
    ensures Reachable(c, net) && Enabled(c, net, e) && !AssertsPass(net.nodes[e.at], e)
  {
    var ns := Listing(c.nodes, MAX_NODES + 1);
    net := Wrap(c, ns);
    e := Expire(Wrapper(ns), {});
    assert net.nodes[Wrapper(ns)].rtable[Dest(ns)].hops == INFINITY2;
  }

  /** While a route is under repair, a packet of the node's own fails on it too. It was never forwarded, so it is not
      repaired but reported as a lost link. */
  lemma LinkFails(c: Config) returns (net: Net, e: Event)
    requires c.localRepair && |c.nodes| > MAX_REPAIR_NODES
    ensures Reachable(c, net) && Enabled(c, net, e) && !AssertsPass(net.nodes[e.at], e)
    ensures e.LoseLink? && HasSent(net, e.at, e.nbr, 0)
  {
    var ns := Listing(c.nodes, 4);
    net := Repairing(c, ns[0], ns[1], ns[2], ns[3]);
    e := LoseLink(ns[2], ns[3]);
    assert HasSent(net, ns[2], ns[3], 0);
    assert UsesLink(net.nodes[ns[2]].rtable[ns[3]], ns[3]);
  }

  /** No assertion of a handler ever fails exactly on the networks that are loop free. */
  lemma AssertsIff(c: Config)
    ensures (forall net, e | Reachable(c, net) && Enabled(c, net, e) :: AssertsPass(net.nodes[e.at], e))
            <==> |c.nodes| <= 227 && (c.localRepair ==> |c.nodes| <= 3)
  {
    if Safe(c) {
      forall net, e | Reachable(c, net) && Enabled(c, net, e) ensures AssertsPass(net.nodes[e.at], e) {
        AssertsNeverFail(c, net, e);
      }
    } else if |c.nodes| > MAX_NODES {
      var net, e := PurgeFails(c);
    } else {
      var net, e := LinkFails(c);
    }
  }
}
