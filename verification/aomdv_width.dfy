// How wide a network AOMDV can stand: hop counts travel in eight bits. On 257 nodes or more a request can come back
// with hop count zero and two nodes point at each other, unless no entry ever gets a second path.
module AomdvWidth {
  import opened Common
  import opened AomdvPaths
  import opened AomdvRtable
  import opened AomdvAgent
  import opened AomdvNetwork
  import opened AomdvDiscovery
  import opened AomdvRuns
  import opened AomdvSafety
  import opened AomdvSingle

  /** The destination, then nodes that will know routes to it of 1, 2, and so on up to 256 hops. */
  ghost predicate Cast(c: Config, ns: seq<Addr>) {
    |ns| == MAX_NODES + 1 && Distinct(ns) && forall i | 0 <= i < |ns| :: ns[i] in c.nodes
  }

  /** The last node of the chain of replies. */
  const LAST: nat := INFINITY2

  /** The node d asks for, which answers nobody. */
  function Target(ns: seq<Addr>): Addr
    requires |ns| > 3
  {
    ns[3]
  }

  function Learned(prev: Addr, k: nat, first: Addr): Entry {
    Entry(4, INFINITY, [Path(prev, k, MY_ROUTE_TIMEOUT, first)], 0, Up, false)
  }

  function Learner(x: Addr, d: Addr, prev: Addr, k: nat, first: Addr, l: Limits): Node {
    Node(x, l, 4, 2, map[d := Learned(prev, k, first)], map[], {})
  }

  function Reply(y: Addr, x: Addr, d: Addr, hops: nat, first: Addr): Msg {
    Rrep(y, x, x, hops, d, 4, 1, first, MY_ROUTE_TIMEOUT, NETWORK_DIAMETER)
  }

  /** A learner that has answered x. */
  function Answerer(y: Addr, d: Addr, prev: Addr, k: nat, first: Addr, x: Addr, l: Limits): Node {
    Node(y, l, 4, 2,
         map[d := Learned(prev, k, first).(adv := k, error := true),
             x := Entry(4, INFINITY, [Path(x, 1, REV_ROUTE_LIFE, y)], 0, Up, false)],
         map[(x, 1) := true], {})
  }

  /** The destination answers the first node of the chain. */
  lemma DestAnswers(d: Addr, t: Addr, x: Addr, l: Limits) returns (s: Node)
    requires x != d && t != d
    ensures RecvRequest(Asker(d, t, l), Asking(x, d), 0.0) == (s, [Reply(d, x, d, 0, x)])
  {
    s := RecvRequest(Asker(d, t, l), Asking(x, d), 0.0).0;
  }

  /** A node of the chain answers the next one. */
  lemma LearnerAnswers(y: Addr, d: Addr, prev: Addr, k: nat, first: Addr, x: Addr, l: Limits)
    requires x != y && x != d && y != d && 1 <= k < LAST
    ensures RecvRequest(Learner(y, d, prev, k, first, l), Asking(x, d), 0.0) ==
            (Answerer(y, d, prev, k, first, x, l), [Reply(y, x, d, k, first)])
  {
    OneHop(Path(prev, k, MY_ROUTE_TIMEOUT, first));
    var s := Learner(y, d, prev, k, first, l);
    var h := Heard(s, Asking(x, d), 0.0);
    assert h.rtable == map[d := Learned(prev, k, first),
                           x := Entry(4, INFINITY, [Path(x, 1, REV_ROUTE_LIFE, y)], 0, Up, false)];
    assert h.bcache == map[(x, 1) := false];
    var r := Respond(h, Asking(x, d), true, false, 0.0);
    assert r.0.bcache == map[(x, 1) := true];
    assert r.0.rtable == Answerer(y, d, prev, k, first, x, l).rtable;
  }

  lemma AskerLearns(x: Addr, y: Addr, d: Addr, k: nat, first: Addr, l: Limits)
    requires x != d && k < LAST
    ensures RecvReply(Asker(x, d, l), Reply(y, x, d, k, first), 0.0) == (Learner(x, d, y, k + 1, first, l), [])
  {
    assert RecvReply(Asker(x, d, l), Reply(y, x, d, k, first), 0.0).0.rtable == map[d := Learned(y, k + 1, first)];
  }

  /** The first node of the chain passes the request of d on, having answered y. */
  lemma FirstPassesOn(x: Addr, d: Addr, t: Addr, y: Addr, l: Limits) returns (s: Node)
    requires x != d && t !in {x, d, y} && y != d
    ensures RecvRequest(Answerer(x, d, d, 1, x, y, l), Asking(d, t), 0.0) ==
            (s, [Passed(x, 1, d, t, x, NETWORK_DIAMETER - 1)])
  {
    s := RecvRequest(Answerer(x, d, d, 1, x, y, l), Asking(d, t), 0.0).0;
  }

  // ----- the chain of replies -----

  /** Node k knows a route of k hops over the one before; the request of d that the first node passed on is still in
      flight. */
  ghost predicate Chain(c: Config, net: Net, ns: seq<Addr>, k: nat)
    requires Cast(c, ns) && 2 <= k <= LAST
  {
    && Reachable(c, net) && net.nodes.Keys == c.nodes
    && net.nodes[ns[k]] == Learner(ns[k], ns[0], ns[k - 1], k, ns[1], c.limits)
    && Passed(ns[1], 1, ns[0], Target(ns), ns[1], NETWORK_DIAMETER - 1) in net.flight
    && Fresh(c, net, ns, k + 1)
  }

  /** x asks for d and is answered by y, which is as it was. */
  lemma Learns(c: Config, net: Net, y: Addr, x: Addr, d: Addr, k: nat, first: Addr, s: Node) returns (net': Net)
    requires Reachable(c, net) && x != d && x != y && k < LAST && x in net.nodes && y in net.nodes
    requires net.nodes[x] == InitialNode(x, c.limits)
    requires RecvRequest(net.nodes[y], Asking(x, d), 0.0) == (s, [Reply(y, x, d, k, first)])
    ensures Reachable(c, net') && net.flight <= net'.flight
    ensures net'.nodes == net.nodes[y := s][x := Learner(x, d, y, k + 1, first, c.limits)]
  {
    Asks(x, d, c.limits);
    var n1 := Happens(c, net, Data(x, d, true, false, NETWORK_DIAMETER, 0.0), Asker(x, d, c.limits), [Asking(x, d)]);
    var n2 := Happens(c, n1, Receive(y, Asking(x, d), 0.0), s, [Reply(y, x, d, k, first)]);
    AskerLearns(x, y, d, k, first, c.limits);
    net' := Happens(c, n2, Receive(x, Reply(y, x, d, k, first), 0.0), Learner(x, d, y, k + 1, first, c.limits), []);
  }

  /** d asks, and answers the first node. */
  lemma FirstLearns(c: Config, ns: seq<Addr>) returns (net: Net)
    requires Cast(c, ns)
    ensures Reachable(c, net) && net.nodes.Keys == c.nodes && Fresh(c, net, ns, 2)
    ensures net.nodes[ns[1]] == Learner(ns[1], ns[0], ns[0], 1, ns[1], c.limits)
    ensures Asking(ns[0], Target(ns)) in net.flight
  {
    var d, x, t := ns[0], ns[1], Target(ns);
    InitialReachable(c);
    Asks(d, t, c.limits);
    var n1 := Happens(c, Initial(c), Data(d, t, true, false, NETWORK_DIAMETER, 0.0), Asker(d, t, c.limits),
                      [Asking(d, t)]);
    var s := DestAnswers(d, t, x, c.limits);
    net := Learns(c, n1, d, x, d, 0, x, s);
  }

  /** The first node answers the second and then passes on what d asked. */
  lemma Begin(c: Config, ns: seq<Addr>) returns (net: Net)
    requires Cast(c, ns)
    ensures Chain(c, net, ns, 2)
  {
    var d, x, y, t := ns[0], ns[1], ns[2], Target(ns);
    var n1 := FirstLearns(c, ns);
    LearnerAnswers(x, d, d, 1, x, y, c.limits);
    var n2 := Learns(c, n1, x, y, d, 1, x, Answerer(x, d, d, 1, x, y, c.limits));
    var s := FirstPassesOn(x, d, t, y, c.limits);
    net := Happens(c, n2, Receive(x, Asking(d, t), 0.0), s, [Passed(x, 1, d, t, x, NETWORK_DIAMETER - 1)]);
  }

  lemma Extend(c: Config, net: Net, ns: seq<Addr>, k: nat) returns (net': Net)
    requires Cast(c, ns) && 2 <= k < LAST && Chain(c, net, ns, k)
    ensures Chain(c, net', ns, k + 1)
  {
    var d, y, x, first := ns[0], ns[k], ns[k + 1], ns[1];
    LearnerAnswers(y, d, ns[k - 1], k, first, x, c.limits);
    net' := Learns(c, net, y, x, d, k, first, Answerer(y, d, ns[k - 1], k, first, x, c.limits));
  }

  lemma {:induction false} Build(c: Config, ns: seq<Addr>, k: nat) returns (net: Net)
    requires Cast(c, ns) && 2 <= k <= LAST
    ensures Chain(c, net, ns, k)
  {
    if k == 2 {
      net := Begin(c, ns);
    } else {
      var n := Build(c, ns, k - 1);
      net := Extend(c, n, ns, k - 1);
    }
  }

  // ----- the hop count wraps -----

  /** The end of the chain, once it has passed the request of d on under its own hop count. */
  function Hub(z: Addr, d: Addr, prev: Addr, first: Addr, l: Limits): Node {
    Node(z, l, 4, 2, map[d := Learned(prev, LAST, first).(adv := LAST)], map[(d, 1) := false], {})
  }

  /** It hears the request over the first node, the last hop of its own path: the path it is offered is not disjoint
      from its own and stays out, the request goes on. */
  lemma HubPassesOn(z: Addr, d: Addr, t: Addr, prev: Addr, first: Addr, l: Limits)
    requires z != d && z != t && t != d && prev != first
    ensures RecvRequest(Learner(z, d, prev, LAST, first, l), Passed(first, 1, d, t, first, NETWORK_DIAMETER - 1), 0.0)
            == (Hub(z, d, prev, first, l), [Passed(z, LAST, d, t, first, NETWORK_DIAMETER - 2)])
  {
    var s, rq := Learner(z, d, prev, LAST, first, l), Passed(first, 1, d, t, first, NETWORK_DIAMETER - 1);
    OneHop(Path(prev, LAST, MY_ROUTE_TIMEOUT, first));
    var h := Heard(s, rq, 0.0);
    assert h.rtable == map[d := Learned(prev, LAST, first)] && h.bcache == map[(d, 1) := false];
    var r := Respond(h, rq, false, false, 0.0);
    assert r.0.rtable == Hub(z, d, prev, first, l).rtable;
  }

  /** The end of the chain and the last node, after the hop count of the request wrapped. */
  lemma Wrap(c: Config, ns: seq<Addr>) returns (net: Net)
    requires Cast(c, ns)
    ensures Reachable(c, net) && net.nodes.Keys == c.nodes
    ensures var d, first, z, y, t := ns[0], ns[1], ns[LAST], ns[MAX_NODES], Target(ns);
            && net.nodes[z] == Hub(z, d, ns[LAST - 1], first, c.limits)
            && net.nodes[y] == Relayer(y, z, LONGEST, d, first, c.limits)
            && Passed(y, 0, d, t, first, NETWORK_DIAMETER - 3) in net.flight
  {
    hide RecvRequest;
    var d, first, z, y, t := ns[0], ns[1], ns[LAST], ns[MAX_NODES], Target(ns);
    var n0 := Build(c, ns, LAST);
    HubPassesOn(z, d, t, ns[LAST - 1], first, c.limits);
    var n1 := Happens(c, n0, Receive(z, Passed(first, 1, d, t, first, NETWORK_DIAMETER - 1), 0.0),
                      Hub(z, d, ns[LAST - 1], first, c.limits), [Passed(z, LAST, d, t, first, NETWORK_DIAMETER - 2)]);
    RelayerPassesOn(y, z, LAST, d, t, first, NETWORK_DIAMETER - 2, c.limits);
    net := Happens(c, n1, Receive(y, Passed(z, LAST, d, t, first, NETWORK_DIAMETER - 2), 0.0),
                   Relayer(y, z, LONGEST, d, first, c.limits), [Passed(y, 0, d, t, first, NETWORK_DIAMETER - 3)]);
  }

  lemma NothingMet(p: Path, q: Path)
    requires p.nexthop != q.nexthop && p.lasthop != q.lasthop
    ensures !Has([p], Same(q.nexthop, q.lasthop)) && !Has([p], Meets(q.nexthop, q.lasthop))
  {
  }

  /** The end of the chain takes the last node, whose route leads over itself, for a neighbour of d. */
  lemma TakesWrapped(z: Addr, d: Addr, t: Addr, prev: Addr, first: Addr, y: Addr, l: Limits)
    returns (s: Node, sent: seq<Msg>)
    requires z != d && prev != y && first != z && Room(l) > 1
    ensures RecvRequest(Hub(z, d, prev, first, l), Passed(y, 0, d, t, first, NETWORK_DIAMETER - 3), 0.0) == (s, sent)
    ensures d in s.rtable && s.rtable[d].flag == Up && exists p | p in s.rtable[d].paths :: p.nexthop == y
  {
    var s0, rq := Hub(z, d, prev, first, l), Passed(y, 0, d, t, first, NETWORK_DIAMETER - 3);
    var p, q := Path(prev, LAST, MY_ROUTE_TIMEOUT, first), Path(y, 1, REV_ROUTE_LIFE, z);
    var e := s0.rtable[d];
    NothingMet(p, q);
    OneHop(p);
    assert SameReverse(e, rq, q, z, l) == Reverse(e.(paths := [p] + [q]), true, false);
    var h := Heard(s0, rq, 0.0);
    assert h.rtable[d].paths == [p] + [q];
    s, sent := RecvRequest(s0, rq, 0.0).0, RecvRequest(s0, rq, 0.0).1;
    assert s.rtable[d].paths == [p] + [q];
    assert q in s.rtable[d].paths;
  }

  lemma WideLoops(c: Config, ns: seq<Addr>) returns (net: Net)
    requires Cast(c, ns) && Room(c.limits) > 1
    ensures Reachable(c, net) && !LoopFree(net)
  {
    hide RecvRequest;
    var d, first, z, y, t := ns[0], ns[1], ns[LAST], ns[MAX_NODES], Target(ns);
    var n := Wrap(c, ns);
    var s, sent := TakesWrapped(z, d, t, ns[LAST - 1], first, y, c.limits);
    net := Happens(c, n, Receive(z, Passed(y, 0, d, t, first, NETWORK_DIAMETER - 3), 0.0), s, sent);
    assert HasPath(net, z, d, y) && HasPath(net, y, d, z);
    var r := [z, y, z];
    assert Walk(net, d, r);
    assert r[0] == r[2];
  }

  lemma TooWide(c: Config) returns (net: Net)
    requires |c.nodes| > MAX_NODES && Room(c.limits) > 1
    ensures Reachable(c, net) && !LoopFree(net)
  {
    var ns := Listing(c.nodes, MAX_NODES + 1);
    net := WideLoops(c, ns);
  }

  /** AOMDV is loop free in every run, along any choice of stored paths, exactly on networks of at most 256 nodes, or
      with room for one path per entry, or where a second path would have to be shorter than it can be. */
  lemma LoopFreeIff(c: Config)
    ensures (forall net | Reachable(c, net) :: LoopFree(net)) <==>
            |c.nodes| <= 256 || c.limits.maxPaths <= 1 || c.limits.maxDiff < -254
  {
    if OnePath(c) {
      forall net | Reachable(c, net) ensures LoopFree(net) {
        OnePathLoopFree(c, net);
      }
    } else if Safe(c) {
      forall net | Reachable(c, net) ensures LoopFree(net) {
        LoopFreedom(c, net);
      }
    } else {
      var net := TooWide(c);
    }
  }
}
