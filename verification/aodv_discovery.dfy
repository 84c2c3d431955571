// Route discovery comes to its end: on a line of up to 30 hops the request finds the destination, the answer finds its
// way back, everybody on the line knows the way to both ends, and the packet that started it arrives.
module AodvDiscovery {
  import opened Common
  import opened AodvTable
  import opened AodvAgent
  import opened AodvNetwork

  lemma InitialReachable(c: Config)
    ensures Reachable(c, Initial(c.nodes))
  {
    var run := [Initial(c.nodes)];
    assert IsRun(c, run) && run[|run| - 1] == Initial(c.nodes);
  }

  lemma StepReachable(c: Config, net: Net, e: Event)
    requires Reachable(c, net) && Enabled(c, net, e)
    ensures Reachable(c, Apply(c, net, e))
  {
    var net' := Apply(c, net, e);
    var run :| IsRun(c, run) && run[|run| - 1] == net;
    var run' := run + [net'];
    forall i | 0 < i < |run'| ensures Step(c, run'[i - 1], run'[i]) {
      if i < |run| {
        assert Step(c, run[i - 1], run[i]);
      }
    }
    assert IsRun(c, run') && run'[|run'| - 1] == net';
  }

  /** The node goes over into s and sends m. */
  ghost predicate Moved(net: Net, net': Net, at: Addr, s: Node, sent: set<Msg>) {
    net'.nodes == net.nodes[at := s] && net'.flight == net.flight + sent
  }

  lemma Happens(c: Config, net: Net, e: Event, s: Node, out: seq<Msg>) returns (net': Net)
    requires Reachable(c, net) && Enabled(c, net, e) && Handle(net.nodes[e.at], e) == (s, out)
    ensures Reachable(c, net') && Moved(net, net', e.at, s, set m | m in out)
  {
    StepReachable(c, net, e);
    net' := Apply(c, net, e);
  }

  /** Up to 31 different nodes. */
  ghost predicate Line(c: Config, xs: seq<Addr>) {
    2 <= |xs| <= NETWORK_DIAMETER + 1 && Distinct(xs) && forall i | 0 <= i < |xs| :: xs[i] in c.nodes
  }

  function RouteUp(sn: nat, hops: nat, nexthop: Addr, pcs: set<Addr>): Entry {
    Entry(sn, hops, nexthop, Up, pcs)
  }

  // ----- the nodes during the discovery of d by s -----

  function Asking(s: Addr, d: Addr): Node {
    Node(s, 4, 2, map[d := FreshEntry], {}, {})
  }

  /** A node that heard the request of s `hops` hops away from it. */
  function Hearing(x: Addr, seqno: nat, s: Addr, hops: nat, nexthop: Addr): Node {
    Node(x, seqno, 1, map[s := RouteUp(4, hops, nexthop, {})], {(s, 1)}, {})
  }

  /** A relay that heard the answer. */
  function Knowing(x: Addr, s: Addr, back: Addr, away: nat, d: Addr, hops: nat, nexthop: Addr): Node {
    Node(x, 2, 1, map[s := RouteUp(4, away, back, {}), d := RouteUp(4, hops, nexthop, {back})], {(s, 1)}, {})
  }

  function Source(s: Addr, a: Addr, d: Addr, hops: nat): Node {
    Node(s, 4, 2, map[d := RouteUp(4, hops, a, {})], {}, {})
  }

  lemma Asks(s: Addr, d: Addr)
    requires s != d
    ensures Resolve(InitialNode(s), Pkt(s, d, 0), false, NETWORK_DIAMETER) ==
            (Asking(s, d), [Rreq(s, 1, 1, d, 0, s, 4, NETWORK_DIAMETER)])
  {
  }

  lemma PassesOn(x: Addr, from: Addr, s: Addr, d: Addr, hop: nat, ttl: int)
    requires x != s && x != d && d != s && 1 <= hop < NETWORK_DIAMETER && ttl > 1
    ensures RecvRequest(InitialNode(x), Rreq(from, hop, 1, d, 0, s, 4, ttl)) ==
            (Hearing(x, 2, s, hop, from), [Rreq(x, hop + 1, 1, d, 0, s, 4, ttl - 1)])
  {
    var r := RecvRequest(InitialNode(x), Rreq(from, hop, 1, d, 0, s, 4, ttl)).0;
    assert r.rtable == Hearing(x, 2, s, hop, from).rtable && r.bcache == {(s, 1)};
  }

  lemma DestAnswers(d: Addr, from: Addr, s: Addr, hop: nat, ttl: int)
    requires d != s && 1 <= hop <= NETWORK_DIAMETER
    ensures RecvRequest(InitialNode(d), Rreq(from, hop, 1, d, 0, s, 4, ttl)) ==
            (Hearing(d, 4, s, hop, from), [Rrep(d, from, s, 1, d, 4, NETWORK_DIAMETER)])
  {
    var r := RecvRequest(InitialNode(d), Rreq(from, hop, 1, d, 0, s, 4, ttl)).0;
    assert r.rtable == Hearing(d, 4, s, hop, from).rtable && r.bcache == {(s, 1)};
  }

  lemma Relays(x: Addr, s: Addr, back: Addr, away: nat, d: Addr, from: Addr, hop: nat, ttl: int)
    requires x != s && x != d && s != d && 1 <= away <= NETWORK_DIAMETER && 1 <= hop <= NETWORK_DIAMETER && ttl > 1
    ensures RecvReply(Hearing(x, 2, s, away, back), Rrep(from, x, s, hop, d, 4, ttl)) ==
            (Knowing(x, s, back, away, d, hop, from), [Rrep(x, back, s, hop + 1, d, 4, ttl - 1)])
  {
    var r := RecvReply(Hearing(x, 2, s, away, back), Rrep(from, x, s, hop, d, 4, ttl)).0;
    assert r.rtable[d].precursors == {back};
    assert r.rtable == Knowing(x, s, back, away, d, hop, from).rtable;
  }

  lemma TakesAnswer(s: Addr, d: Addr, from: Addr, hop: nat, ttl: int)
    requires s != d && 1 <= hop <= NETWORK_DIAMETER
    ensures RecvReply(Asking(s, d), Rrep(from, s, s, hop, d, 4, ttl)) == (Source(s, from, d, hop), [])
  {
    var r := RecvReply(Asking(s, d), Rrep(from, s, s, hop, d, 4, ttl)).0;
    assert r.rtable == Source(s, from, d, hop).rtable;
  }

  // ----- the request goes out -----

  function Dest(xs: seq<Addr>): Addr
    requires xs != []
  {
    xs[|xs| - 1]
  }

  ghost predicate Fresh(net: Net, xs: seq<Addr>, from: nat) {
    forall j | from <= j < |xs| :: xs[j] in net.nodes && net.nodes[xs[j]] == InitialNode(xs[j])
  }

  /** The nodes from a to b - 1 have heard the request, and know the way back. */
  ghost predicate Heard(net: Net, xs: seq<Addr>, a: nat, b: nat)
    requires 1 <= a && b <= |xs|
  {
    forall j | a <= j < b :: xs[j] in net.nodes && net.nodes[xs[j]] == Hearing(xs[j], 2, xs[0], j, xs[j - 1])
  }

  ghost predicate Asked(c: Config, net: Net, xs: seq<Addr>, i: nat)
    requires Line(c, xs) && i < |xs| - 1
  {
    var s, d := xs[0], Dest(xs);
    && Reachable(c, net) && net.nodes.Keys == c.nodes
    && net.nodes[s] == Asking(s, d) && Heard(net, xs, 1, i + 1) && Fresh(net, xs, i + 1)
    && Rreq(xs[i], i + 1, 1, d, 0, s, 4, NETWORK_DIAMETER - i) in net.flight
  }

  lemma {:induction false} GoesOut(c: Config, xs: seq<Addr>, i: nat) returns (net: Net)
    requires Line(c, xs) && i < |xs| - 1
    ensures Asked(c, net, xs, i)
  {
    var s, d := xs[0], Dest(xs);
    if i == 0 {
      InitialReachable(c);
      Asks(s, d);
      net := Happens(c, Initial(c.nodes), Data(s, Pkt(s, d, 0), false, NETWORK_DIAMETER), Asking(s, d),
                     [Rreq(s, 1, 1, d, 0, s, 4, NETWORK_DIAMETER)]);
    } else {
      var n := GoesOut(c, xs, i - 1);
      var x, from := xs[i], xs[i - 1];
      PassesOn(x, from, s, d, i, NETWORK_DIAMETER - (i - 1));
      net := Happens(c, n, Receive(x, Rreq(from, i, 1, d, 0, s, 4, NETWORK_DIAMETER - (i - 1))),
                     Hearing(x, 2, s, i, from), [Rreq(x, i + 1, 1, d, 0, s, 4, NETWORK_DIAMETER - i)]);
    }
  }

  // ----- the answer comes back -----

  /** The nodes from i to the last but one know both ends. */
  ghost predicate Known(net: Net, xs: seq<Addr>, i: nat)
    requires 1 <= i && xs != []
  {
    forall j | i <= j < |xs| - 1 :: xs[j] in net.nodes && net.nodes[xs[j]] ==
      Knowing(xs[j], xs[0], xs[j - 1], j, Dest(xs), |xs| - 1 - j, xs[j + 1])
  }

  /** The answer has left node i. */
  ghost predicate Answered(c: Config, net: Net, xs: seq<Addr>, i: nat)
    requires Line(c, xs) && 1 <= i < |xs|
  {
    var s, d, k := xs[0], Dest(xs), |xs| - 1;
    && Reachable(c, net) && net.nodes.Keys == c.nodes
    && net.nodes[s] == Asking(s, d) && Heard(net, xs, 1, i) && Known(net, xs, i)
    && net.nodes[d] == Hearing(d, 4, s, k, xs[k - 1])
    && Rrep(xs[i], xs[i - 1], s, k - i + 1, d, 4, NETWORK_DIAMETER - (k - i)) in net.flight
  }

  lemma Arrives(c: Config, xs: seq<Addr>) returns (net: Net)
    requires Line(c, xs)
    ensures Answered(c, net, xs, |xs| - 1)
  {
    var s, d, k := xs[0], Dest(xs), |xs| - 1;
    var n := GoesOut(c, xs, k - 1);
    DestAnswers(d, xs[k - 1], s, k, NETWORK_DIAMETER - (k - 1));
    net := Happens(c, n, Receive(d, Rreq(xs[k - 1], k, 1, d, 0, s, 4, NETWORK_DIAMETER - (k - 1))),
                   Hearing(d, 4, s, k, xs[k - 1]), [Rrep(d, xs[k - 1], s, 1, d, 4, NETWORK_DIAMETER)]);
  }

  lemma RelayedOn(c: Config, n: Net, xs: seq<Addr>, i: nat) returns (net: Net)
    requires Line(c, xs) && 1 <= i < |xs| - 1 && Answered(c, n, xs, i + 1)
    ensures Answered(c, net, xs, i)
  {
    hide RecvReply;
    var s, d, k := xs[0], Dest(xs), |xs| - 1;
    var x, from := xs[i], xs[i + 1];
    var rp := Rrep(from, x, s, k - i, d, 4, NETWORK_DIAMETER - (k - i - 1));
    Relays(x, s, xs[i - 1], i, d, from, k - i, NETWORK_DIAMETER - (k - i - 1));
    assert n.nodes[x] == Hearing(x, 2, s, i, xs[i - 1]) && rp in n.flight;
    net := Happens(c, n, Receive(x, rp), Knowing(x, s, xs[i - 1], i, d, k - i, from),
                   [Rrep(x, xs[i - 1], s, k - i + 1, d, 4, NETWORK_DIAMETER - (k - i))]);
    AnsweredNext(c, n, net, xs, i);
  }

  lemma AnsweredNext(c: Config, n: Net, net: Net, xs: seq<Addr>, i: nat)
    requires Line(c, xs) && 1 <= i < |xs| - 1 && Answered(c, n, xs, i + 1) && Reachable(c, net)
    requires var s, d, k := xs[0], Dest(xs), |xs| - 1;
             && net.nodes == n.nodes[xs[i] := Knowing(xs[i], s, xs[i - 1], i, d, k - i, xs[i + 1])]
             && Rrep(xs[i], xs[i - 1], s, k - i + 1, d, 4, NETWORK_DIAMETER - (k - i)) in net.flight
    ensures Answered(c, net, xs, i)
  {
    hide Knowing, Hearing, Asking, Reachable;
  }

  lemma {:induction false} ComesBack(c: Config, xs: seq<Addr>, i: nat) returns (net: Net)
    requires Line(c, xs) && 1 <= i < |xs|
    ensures Answered(c, net, xs, i)
    decreases |xs| - i
  {
    if i == |xs| - 1 {
      net := Arrives(c, xs);
    } else {
      var n := ComesBack(c, xs, i + 1);
      net := RelayedOn(c, n, xs, i);
    }
  }

  // ----- the packet goes through -----

  /** Everybody on the line knows the way, and the packet has left node i. */
  ghost predicate Sent(c: Config, net: Net, xs: seq<Addr>, i: nat)
    requires Line(c, xs) && i < |xs| - 1
  {
    var s, d, k := xs[0], Dest(xs), |xs| - 1;
    && Reachable(c, net) && net.nodes.Keys == c.nodes
    && net.nodes[s] == Source(s, xs[1], d, k) && Known(net, xs, 1)
    && net.nodes[d] == Hearing(d, 4, s, k, xs[k - 1])
    && Hop(xs[i], xs[i + 1], Pkt(s, d, i)) in net.flight
  }

  /** A node with a route passes the packet on. */
  lemma Passed(c: Config, net: Net, x: Addr, pkt: Pkt, n: Node, nexthop: Addr) returns (net': Net)
    requires Reachable(c, net) && x in net.nodes && net.nodes[x] == n && n.index == x && With(net, x, pkt)
    requires pkt.dst in n.rtable && n.rtable[pkt.dst].flag == Up && n.rtable[pkt.dst].nexthop == nexthop
    ensures Reachable(c, net') && net'.nodes == net.nodes && net'.flight == net.flight + {Hop(x, nexthop, pkt)}
  {
    assert n.rtable[pkt.dst := n.rtable[pkt.dst]] == n.rtable;
    net' := Happens(c, net, Data(x, pkt, true, NETWORK_DIAMETER), n, [Hop(x, nexthop, pkt)]);
    assert net.nodes[x := n] == net.nodes;
  }

  lemma {:induction false} Travels(c: Config, xs: seq<Addr>, i: nat) returns (net: Net)
    requires Line(c, xs) && i < |xs| - 1
    ensures Sent(c, net, xs, i)
  {
    var s, d, k := xs[0], Dest(xs), |xs| - 1;
    if i == 0 {
      var n := ComesBack(c, xs, 1);
      var rp := Rrep(xs[1], s, s, k, d, 4, NETWORK_DIAMETER - (k - 1));
      TakesAnswer(s, d, xs[1], k, NETWORK_DIAMETER - (k - 1));
      var n1 := Happens(c, n, Receive(s, rp), Source(s, xs[1], d, k), []);
      net := Passed(c, n1, s, Pkt(s, d, 0), Source(s, xs[1], d, k), xs[1]);
    } else {
      var n := Travels(c, xs, i - 1);
      assert Received(Pkt(s, d, i - 1)) == Pkt(s, d, i);
      net := Passed(c, n, xs[i], Pkt(s, d, i), Knowing(xs[i], s, xs[i - 1], i, d, k - i, xs[i + 1]), xs[i + 1]);
    }
  }

  /** n has a route to d over `next`, of so many hops. */
  predicate Routed(net: Net, n: Addr, d: Addr, next: Addr, hops: nat) {
    HasRoute(net, n, d) && NextHop(net, n, d) == next && KeyAt(net, n, d).hops == hops
  }

  /** Every node on the line is exactly as many hops away from both ends as it is. */
  predicate WaysKnown(net: Net, xs: seq<Addr>)
    requires xs != []
  {
    && (forall i | 0 <= i < |xs| - 1 :: Routed(net, xs[i], Dest(xs), xs[i + 1], |xs| - 1 - i))
    && (forall i | 0 < i < |xs| :: Routed(net, xs[i], xs[0], xs[i - 1], i))
  }

  lemma SentKnows(c: Config, net: Net, xs: seq<Addr>)
    requires Line(c, xs) && Sent(c, net, xs, |xs| - 2)
    ensures WaysKnown(net, xs)
  {
    var s, d, k := xs[0], Dest(xs), |xs| - 1;
    assert s != d;
    forall i | 0 <= i < k ensures Routed(net, xs[i], d, xs[i + 1], k - i) {
      if i > 0 {
        assert net.nodes[xs[i]] == Knowing(xs[i], s, xs[i - 1], i, d, k - i, xs[i + 1]);
      }
    }
    forall i | 0 < i <= k ensures Routed(net, xs[i], s, xs[i - 1], i) {
      if i < k {
        assert net.nodes[xs[i]] == Knowing(xs[i], s, xs[i - 1], i, d, k - i, xs[i + 1]);
      }
    }
  }

  /** On every line of up to 30 hops there is a run after which everybody knows the ways to both ends, and in which the
      first node's packet is handed to the last one. */
  lemma Discovery(c: Config, xs: seq<Addr>) returns (net: Net)
    requires Line(c, xs)
    ensures Reachable(c, net) && WaysKnown(net, xs)
    ensures Hop(xs[|xs| - 2], Dest(xs), Pkt(xs[0], Dest(xs), |xs| - 2)) in net.flight
  {
    net := Travels(c, xs, |xs| - 2);
    SentKnows(c, net, xs);
  }
}
