// Local repair of routes, which ns-2.35/aodv/aodv.h switches on, costs AODV its loop freedom:
// the repair timer takes a route down without raising its sequence number.
module AodvRepair {
  import opened AodvTable
  import opened AodvAgent
  import opened AodvNetwork
  import opened AodvDiscovery
  import opened AodvSafety

  /** Four different nodes: s asks for d and reaches it over a and b. */
  predicate Four(c: Config, s: Addr, a: Addr, b: Addr, d: Addr) {
    && c.localRepair && s in c.nodes && a in c.nodes && b in c.nodes && d in c.nodes
    && s != a && s != b && s != d && a != b && a != d && b != d
  }

  /** The reachable state net holds these four nodes and has sent m. */
  ghost predicate Shows(c: Config, net: Net, s: Node, a: Node, b: Node, d: Node, m: Msg) {
    && Reachable(c, net)
    && s.index in net.nodes && net.nodes[s.index] == s
    && a.index in net.nodes && net.nodes[a.index] == a
    && b.index in net.nodes && net.nodes[b.index] == b
    && d.index in net.nodes && net.nodes[d.index] == d
    && m in net.flight
  }

  /** A packet of s travels over a to b, which has received it after two hops and tries to hand it to d, along with one
      of its own. */
  lemma Travelled(c: Config, s: Addr, a: Addr, b: Addr, d: Addr) returns (net: Net)
    requires Four(c, s, a, b, d)
    ensures Shows(c, net, Source(s, a, d, 3), Knowing(a, s, s, 1, d, 2, b), Knowing(b, s, a, 2, d, 1, d),
                  Hearing(d, 4, s, 3, b),
                  Hop(b, d, Pkt(s, d, 2)))
    ensures Hop(b, d, Pkt(b, d, 0)) in net.flight
  {
    var xs := [s, a, b, d];
    net := Travels(c, xs, 2);
    assert net.nodes[xs[1]] == Knowing(a, s, s, 1, d, 2, b) && net.nodes[xs[2]] == Knowing(b, s, a, 2, d, 1, d);
    net := Passed(c, net, b, Pkt(b, d, 0), Knowing(b, s, a, 2, d, 1, d), d);
  }

  /** b marks its route to d as under repair and asks for a new one. */
  function RepairingB(s: Addr, a: Addr, b: Addr, d: Addr): Node {
    Node(b, 4, 2, map[s := RouteUp(4, 2, a, {}), d := Entry(4, 1, d, InRepair, {a})], {(s, 1)}, {})
  }

  lemma Repairing(c: Config, s: Addr, a: Addr, b: Addr, d: Addr) returns (net: Net)
    requires Four(c, s, a, b, d)
    ensures Shows(c, net, Source(s, a, d, 3), Knowing(a, s, s, 1, d, 2, b), RepairingB(s, a, b, d),
                  Hearing(d, 4, s, 3, b), Rreq(b, 1, 1, d, 4, b, 4, 30))
    ensures Hop(b, d, Pkt(b, d, 0)) in net.flight
  {
    net := Travelled(c, s, a, b, d);
    assert HasSent(net, b, d, 2);
    var e := Repair(b, d, 2, false, 30);
    StepReachable(c, net, e);
    net := Apply(c, net, e);
    assert net.nodes[b] == RepairingB(s, a, b, d);
  }

  /** a answers with the route over b that it still has. */
  lemma Misled(c: Config, s: Addr, a: Addr, b: Addr, d: Addr) returns (net: Net)
    requires Four(c, s, a, b, d)
    ensures Reachable(c, net) && HasRoute(net, a, d) && NextHop(net, a, d) == b
    ensures b in net.nodes && net.nodes[b] == RepairingB(s, a, b, d) && Rrep(a, b, b, 3, d, 4, 30) in net.flight
  {
    net := Repairing(c, s, a, b, d);
    var e := Receive(a, Rreq(b, 1, 1, d, 4, b, 4, 30));
    StepReachable(c, net, e);
    net := Apply(c, net, e);
  }

  /** The repair of b runs out of time, which takes its route down without a new sequence number; only then the
      answer comes, b believes it, and the two point at each other. */
  lemma RepairLoops(c: Config, s: Addr, a: Addr, b: Addr, d: Addr) returns (net: Net)
    requires Four(c, s, a, b, d)
    ensures Reachable(c, net)
    ensures HasRoute(net, a, d) && NextHop(net, a, d) == b
    ensures HasRoute(net, b, d) && NextHop(net, b, d) == a
    ensures !LoopFree(net)
  {
    net := Misled(c, s, a, b, d);
    var e := RepairOver(b, d);
    StepReachable(c, net, e);
    net := Apply(c, net, e);
    e := Receive(b, Rrep(a, b, b, 3, d, 4, 30));
    StepReachable(c, net, e);
    net := Apply(c, net, e);
    var w := [a, b, a];
    assert Walk(net, d, w);
    assert w[0] == w[2];
  }
}
