// What every run of AODV keeps: the invariant of AodvNetwork, and with it loop freedom.
module AodvSafety {
  import opened Common
  import opened AodvTable
  import opened AodvAgent
  import opened AodvNetwork

  /** Up to this many nodes no hop count can reach the "no route" value. */
  const MAX_NODES: nat := INFINITY2 - SLACK

  /** Up to this many nodes no packet has come further than it has to go, so that no route is repaired locally. */
  const MAX_REPAIR_NODES: nat := 3

  predicate Safe(c: Config) {
    |c.nodes| <= MAX_NODES && (c.localRepair ==> |c.nodes| <= MAX_REPAIR_NODES)
  }

  // ----- keys only improve -----

  ghost predicate KeysGrow(net: Net, net': Net) {
    net.nodes.Keys == net'.nodes.Keys
    && forall n, d | n in net.nodes :: AtLeast(KeyAt(net', n, d), KeyAt(net, n, d))
  }

  lemma TracedKept(net: Net, net': Net, d: Addr, k: Key, p: seq<Addr>)
    requires KeysGrow(net, net') && Traced(net, d, k, p)
    ensures Traced(net', d, k, p)
  {
    forall i | 0 <= i < |p| ensures CloserThan(KeyAt(net', p[i], d), k, i + 1) {
      assert CloserThan(KeyAt(net, p[i], d), k, i + 1);
      assert AtLeast(KeyAt(net', p[i], d), KeyAt(net, p[i], d));
    }
  }

  // ----- hop counts stay small -----

  /** A node that takes an offer is not among the nodes the offer came over. */
  lemma TakerNotOnTrace(net: Net, n: Addr, d: Addr, k: Key, p: seq<Addr>)
    requires n in net.nodes && Traced(net, d, k, p) && Better(k, KeyAt(net, n, d))
    ensures n !in p
  {
  }

  lemma AcceptedHopsSmall(c: Config, net: Net, n: Addr, m: Msg)
    requires Safe(c) && Inv(c, net) && n in net.nodes
    requires m in net.flight && m.Rrep? && Accepts(Lookup(net.nodes[n].rtable, m.dst), m)
    ensures m.hop < INFINITY2
  {
    assert OfferOk(net, m);
    var p :| Traced(net, m.dst, Offer(m), p);
    TakerNotOnTrace(net, n, m.dst, Offer(m), p);
    DistinctFit(p + [n], c.nodes);
  }

  // ----- one step -----

  lemma StepGrows(c: Config, net: Net, at: Addr, heard: set<Msg>, r: (Node, seq<Msg>))
    requires at in net.nodes && Legal(net.nodes[at], heard, r)
    ensures KeysGrow(net, After(net, at, r))
  {
    var net' := After(net, at, r);
    forall n, d | n in net.nodes ensures AtLeast(KeyAt(net', n, d), KeyAt(net, n, d)) {
      if n == at {
        assert AtLeast(KeyOf(r.0.rtable, d), KeyOf(net.nodes[at].rtable, d));
      }
    }
  }

  lemma KeptRouteOk(net: Net, net': Net, n: Addr, d: Addr)
    requires KeysGrow(net, net') && HasRoute(net, n, d) && RouteOk(net, n, d) && RouteTraced(net, n, d)
    requires HasRoute(net', n, d) && SameRoute(net.nodes[n].rtable[d], net'.nodes[n].rtable[d])
    ensures RouteOk(net', n, d) && RouteTraced(net', n, d)
  {
    var nh := NextHop(net, n, d);
    assert AtLeast(KeyAt(net', nh, d), KeyAt(net, nh, d));
    var k := KeyAt(net, n, d);
    var p :| p != [] && p[0] == n && Traced(net, d, Key(k.seqno, k.hops + 1), p);
    TracedKept(net, net', d, Key(k.seqno, k.hops + 1), p);
  }

  lemma LearnedRouteOk(net: Net, net': Net, n: Addr, d: Addr, m: Msg)
    requires KeysGrow(net, net') && FlightOk(net) && m in net.flight && n in net.nodes
    requires HasRoute(net', n, d) && Learned(net.nodes[n], net'.nodes[n], d, m)
    ensures RouteOk(net', n, d) && RouteTraced(net', n, d)
  {
    var k := Offer(m);
    assert AtLeast(KeyAt(net', m.from, d), KeyAt(net, m.from, d));
    assert RouteOk(net', n, d);
    var p :| Traced(net, d, k, p);
    TakerNotOnTrace(net, n, d, k, p);
    TracedKept(net, net', d, k, p);
    LengthenTrace(net', n, d, k, p);
    assert ([n] + p)[0] == n && KeyAt(net', n, d) == k;
  }

  lemma LengthenTrace(net: Net, n: Addr, d: Addr, k: Key, p: seq<Addr>)
    requires Traced(net, d, k, p) && n !in p && n in net.nodes && KeyAt(net, n, d) == k
    ensures Traced(net, d, Key(k.seqno, k.hops + 1), [n] + p)
  {
    var q := [n] + p;
    forall i | 0 <= i < |q|
      ensures q[i] in net.nodes && CloserThan(KeyAt(net, q[i], d), Key(k.seqno, k.hops + 1), i + 1)
    {
      if i > 0 {
        assert q[i] == p[i - 1];
        assert CloserThan(KeyAt(net, p[i - 1], d), k, i);
      }
    }
  }

  lemma RoutesKept(net: Net, at: Addr, heard: set<Msg>, r: (Node, seq<Msg>))
    requires at in net.nodes && Legal(net.nodes[at], heard, r) && heard <= net.flight
    requires FlightOk(net) && RoutesOk(net) && KeysGrow(net, After(net, at, r))
    ensures RoutesOk(After(net, at, r))
  {
    var net' := After(net, at, r);
    forall n, d | HasRoute(net', n, d) ensures RouteOk(net', n, d) && RouteTraced(net', n, d) {
      if n != at {
        assert HasRoute(net, n, d);
        KeptRouteOk(net, net', n, d);
      } else {
        assert KeptOrLearned(net.nodes[at], r.0, d, heard);
        if m :| m in heard && Learned(net.nodes[at], r.0, d, m) {
          LearnedRouteOk(net, net', n, d, m);
        } else {
          assert HasRoute(net, n, d);
          KeptRouteOk(net, net', n, d);
        }
      }
    }
  }

  lemma OldOfferKept(net: Net, net': Net, m: Msg)
    requires KeysGrow(net, net') && Advertises(m) && m.from in net.nodes && OfferOk(net, m)
    ensures OfferOk(net', m)
  {
    assert AtLeast(KeyAt(net', m.from, About(m)), KeyAt(net, m.from, About(m)));
    var p :| Traced(net, About(m), Offer(m), p);
    TracedKept(net, net', About(m), Offer(m), p);
  }

  lemma OldRelayKept(net: Net, net': Net, m: Msg)
    requires KeysGrow(net, net') && m.Rreq? && Relayed(net, m)
    ensures Relayed(net', m)
  {
    if m.hop >= 3 {
      var g :| g in net.nodes && g != m.from && CloserThan(KeyAt(net, g, m.src), Offer(m), 2);
      assert AtLeast(KeyAt(net', g, m.src), KeyAt(net, g, m.src));
    }
  }

  lemma FlightKept(net: Net, at: Addr, heard: set<Msg>, r: (Node, seq<Msg>))
    requires at in net.nodes && net.nodes[at].index == at && Legal(net.nodes[at], heard, r)
    requires heard <= net.flight && forall m | m in heard :: m.from != at
    requires FlightOk(net) && KeysGrow(net, After(net, at, r)) && RoutesOk(After(net, at, r))
    ensures FlightOk(After(net, at, r))
  {
    var net' := After(net, at, r);
    forall m | m in net'.flight
      ensures MsgOk(m) && m.from in net'.nodes
      ensures Advertises(m) ==> OfferOk(net', m)
      ensures m.Rreq? ==> (m.src == m.from ==> m.hop == 1) && Relayed(net', m)
    {
      if m in r.1 {
        assert SentOk(r.0, m, heard);
        if m.Rrep? {
          ReplyTraced(net', at, m, r.0, heard);
        } else if m.Rreq? {
          RequestTraced(net, net', at, m, r.0, heard);
        }
      } else {
        if Advertises(m) {
          OldOfferKept(net, net', m);
        }
        if m.Rreq? {
          OldRelayKept(net, net', m);
        }
      }
    }
  }

  lemma ReplyTraced(net: Net, at: Addr, m: Msg, s: Node, heard: set<Msg>)
    requires at in net.nodes && net.nodes[at] == s && s.index == at && m.Rrep? && SentOk(s, m, heard) && RoutesOk(net)
    ensures OfferOk(net, m)
  {
    if m.dst == at && m.hop == 1 {
      assert Traced(net, m.dst, Offer(m), []);
    } else {
      assert HasRoute(net, at, m.dst);
      assert RouteOk(net, at, m.dst) && RouteTraced(net, at, m.dst);
    }
  }

  /** The two nodes a request was with last are different, since nobody hears what it sends itself. */
  lemma RequestTraced(net: Net, net': Net, at: Addr, m: Msg, s: Node, heard: set<Msg>)
    requires FlightOk(net) && KeysGrow(net, net') && heard <= net.flight && forall rq | rq in heard :: rq.from != at
    requires at in net.nodes && net'.nodes[at] == s && s.index == at && m.Rreq? && SentOk(s, m, heard)
    ensures OfferOk(net', m) && (m.src == m.from ==> m.hop == 1) && Relayed(net', m)
  {
    var k := Offer(m);
    if m.src == at {
      assert Traced(net', m.src, k, []);
    } else {
      var rq :| rq in heard && rq.Rreq? && rq.src == m.src && rq.srcSeq == m.srcSeq && rq.hop + 1 == m.hop;
      assert OfferOk(net, rq) && MsgOk(rq);
      var f := rq.from;
      assert AtLeast(KeyAt(net', f, m.src), KeyAt(net, f, m.src));
      if m.hop >= 3 {
        assert rq.src != f;
        assert CloserThan(KeyAt(net', f, m.src), k, 2);
        TwoTraced(net', m.src, k, at, f);
      } else {
        assert Traced(net', m.src, k, []);
      }
    }
  }

  lemma TwoTraced(net: Net, d: Addr, k: Key, a: Addr, b: Addr)
    requires a in net.nodes && b in net.nodes && a != b && k.hops <= NETWORK_DIAMETER
    requires CloserThan(KeyAt(net, a, d), k, 1) && CloserThan(KeyAt(net, b, d), k, 2)
    ensures Traced(net, d, k, [a, b])
  {
  }

  // ----- data packets -----

  lemma OnlyDataSendsHops(s: Node, e: Event, m: Msg)
    requires (e.Receive? ==> !e.msg.Hop?) && ((e.Request? || e.Repair?) ==> e.dst in s.rtable)
    requires m in Handle(s, e).1 && m.Hop?
    ensures e.Data? && m.from == s.index && m.pkt == e.pkt && e.pkt.dst in s.rtable && s.rtable[e.pkt.dst].flag == Up
  {
  }

  lemma HopsKept(c: Config, net: Net, e: Event)
    requires Inv(c, net) && Enabled(c, net, e)
    ensures HopsOk(Apply(c, net, e))
  {
    var net' := Apply(c, net, e);
    var s, at := net.nodes[e.at], e.at;
    forall m | m in net'.flight && m.Hop? ensures HopOk(net', m) {
      if m in Handle(s, e).1 {
        OnlyDataSendsHops(s, e, m);
        assert HasRoute(net, at, m.pkt.dst) && RouteOk(net, at, m.pkt.dst);
        PacketPlaced(net, at, m.pkt, m);
      }
      HopStays(net, net', m);
    }
  }

  lemma HopStays(net: Net, net': Net, m: Msg)
    requires net.nodes.Keys == net'.nodes.Keys && m.Hop? && HopOk(net, m)
    ensures HopOk(net', m)
  {
    if m.pkt.forwards >= 2 {
      var x :| x in net.nodes && x != m.from && x != m.pkt.src && x != m.pkt.dst;
      assert x in net'.nodes;
    }
  }

  lemma PacketPlaced(net: Net, at: Addr, pkt: Pkt, m: Msg)
    requires HopsOk(net) && at in net.nodes && With(net, at, pkt) && m.Hop? && m.from == at && m.pkt == pkt
    requires pkt.dst in net.nodes
    ensures HopOk(net, m)
  {
    if pkt.src != at {
      var h :| h in net.flight && h.Hop? && h.from != at && h.nexthop == at && Received(h.pkt) == pkt;
      assert HopOk(net, h);
    }
  }

  lemma FourNodes(nodes: set<Addr>, a: Addr, b: Addr, d: Addr, e: Addr)
    requires a in nodes && b in nodes && d in nodes && e in nodes
    requires a != b && a != d && a != e && b != d && b != e && d != e
    ensures |nodes| >= 4
  {
    DistinctFit([a, b, d, e], nodes);
  }

  lemma NothingToRepair(c: Config, net: Net, e: Event)
    requires Safe(c) && Inv(c, net) && e.Repair?
    ensures !Enabled(c, net, e)
  {
    if Enabled(c, net, e) {
      var m :| m in net.flight && m.Hop? && m.from == e.at && m.pkt.dst == e.dst && m.pkt.forwards == e.forwards;
      assert HopOk(net, m) && EntryOk(net.nodes[e.at].rtable[e.dst]);
      var x :| x in net.nodes && x != m.from && x != m.pkt.src && x != m.pkt.dst;
      FourNodes(c.nodes, m.from, m.pkt.src, m.pkt.dst, x);
    }
  }

  lemma LegalKeepsInv(c: Config, net: Net, at: Addr, heard: set<Msg>, r: (Node, seq<Msg>))
    requires Inv(c, net) && at in net.nodes && heard <= net.flight && Legal(net.nodes[at], heard, r)
    requires forall m | m in heard :: m.from != at
    ensures RoutingOk(c, After(net, at, r)) && KeysGrow(net, After(net, at, r))
  {
    StepGrows(c, net, at, heard, r);
    RoutesKept(net, at, heard, r);
    FlightKept(net, at, heard, r);
  }

  lemma HandleLegal(c: Config, net: Net, e: Event) returns (heard: set<Msg>)
    requires Safe(c) && Inv(c, net) && Enabled(c, net, e)
    ensures heard <= net.flight && (forall m | m in heard :: m.from != e.at)
    ensures Legal(net.nodes[e.at], heard, Handle(net.nodes[e.at], e))
  {
    var s := net.nodes[e.at];
    heard := {};
    match e {
      case Receive(_, m) =>
        heard := {m};
        assert MsgOk(m);
        match m {
          case Rreq(_, _, _, _, _, _, _, _) => RequestLegal(s, m);
          case Rrep(_, _, _, _, _, _, _) =>
            if Accepts(Lookup(s.rtable, m.dst), m) {
              AcceptedHopsSmall(c, net, e.at, m);
            }
            ReplyLegal(s, m);
          case Rerr(_, _) => ErrorLegal(s, m);
          case _ =>
        }
      case LoseLink(_, nbr) => LinkLegal(s, nbr);
      case Repair(_, _, _, _, _) => NothingToRepair(c, net, e);
      case Data(_, pkt, quiet, ttl) => ResolveLegal(s, pkt, quiet, ttl);
      case Request(_, dst, ttl) => SendLegal(s, dst, ttl);
      case Expire(_, routes) => PurgeLegal(s, routes);
      case _ => OthersLegal(s, e);
    }
  }

  lemma StepKeepsInv(c: Config, net: Net, e: Event)
    requires Safe(c) && Inv(c, net) && Enabled(c, net, e)
    ensures Inv(c, Apply(c, net, e)) && KeysGrow(net, Apply(c, net, e))
  {
    var heard := HandleLegal(c, net, e);
    LegalKeepsInv(c, net, e.at, heard, Handle(net.nodes[e.at], e));
    HopsKept(c, net, e);
  }

  // ----- whole runs -----

  lemma InitialInv(c: Config)
    ensures Inv(c, Initial(c.nodes))
  {
    var net := Initial(c.nodes);
    assert forall n | n in net.nodes :: net.nodes[n] == InitialNode(n);
    assert forall n, d :: !HasRoute(net, n, d);
  }

  lemma SomeStepKeepsInv(c: Config, net: Net, net': Net)
    requires Safe(c) && Inv(c, net) && Step(c, net, net')
    ensures Inv(c, net') && KeysGrow(net, net')
  {
    var e :| Enabled(c, net, e) && net' == Apply(c, net, e);
    StepKeepsInv(c, net, e);
  }

  lemma KeysGrowOn(net: Net, net': Net, net'': Net)
    requires KeysGrow(net, net') && KeysGrow(net', net'')
    ensures KeysGrow(net, net'')
  {
    forall n, d | n in net.nodes ensures AtLeast(KeyAt(net'', n, d), KeyAt(net, n, d)) {
      assert AtLeast(KeyAt(net', n, d), KeyAt(net, n, d));
      assert AtLeast(KeyAt(net'', n, d), KeyAt(net', n, d));
    }
  }

  lemma {:induction false} RunKeepsInv(c: Config, run: seq<Net>, i: nat)
    requires Safe(c) && IsRun(c, run) && i < |run|
    ensures Inv(c, run[i])
  {
    if i == 0 {
      InitialInv(c);
    } else {
      RunKeepsInv(c, run, i - 1);
      SomeStepKeepsInv(c, run[i - 1], run[i]);
    }
  }

  lemma RunStepGrows(c: Config, run: seq<Net>, i: nat)
    requires Safe(c) && IsRun(c, run) && 0 < i < |run|
    ensures KeysGrow(run[i - 1], run[i])
  {
    RunKeepsInv(c, run, i - 1);
    SomeStepKeepsInv(c, run[i - 1], run[i]);
  }

  /** A node's knowledge of a destination never gets worse, over any stretch of any run. */
  lemma RunImprovesKeys(c: Config, run: seq<Net>, i: nat, j: nat)
    requires Safe(c) && IsRun(c, run) && i <= j < |run|
    ensures KeysGrow(run[i], run[j])
  {
    forall k | 0 < k < |run| ensures KeysGrow(run[k - 1], run[k]) {
      RunStepGrows(c, run, k);
    }
    ChainImprovesKeys(run, i, j);
  }

  lemma {:induction false} ChainImprovesKeys(run: seq<Net>, i: nat, j: nat)
    requires i <= j < |run| && forall k | 0 < k < |run| :: KeysGrow(run[k - 1], run[k])
    ensures KeysGrow(run[i], run[j])
    decreases j
  {
    if i < j {
      ChainImprovesKeys(run, i, j - 1);
      KeysGrowOn(run[i], run[j - 1], run[j]);
    }
  }

  lemma {:induction false} WalkClimbs(c: Config, net: Net, d: Addr, w: seq<Addr>, i: nat, j: nat)
    requires Inv(c, net) && Walk(net, d, w) && i < j < |w| && w[j] != d
    ensures w[i] in net.nodes && w[j] in net.nodes
    ensures Better(KeyAt(net, w[j], d), KeyAt(net, w[i], d))
    decreases j
  {
    assert HasRoute(net, w[j - 1], d) && RouteOk(net, w[j - 1], d);
    if i < j - 1 {
      WalkClimbs(c, net, d, w, i, j - 1);
    }
  }

  lemma InvLoopFree(c: Config, net: Net)
    requires Inv(c, net)
    ensures LoopFree(net)
  {
    forall d: Addr, w: seq<Addr>, i, j | Walk(net, d, w) && 0 <= i < j < |w| ensures w[i] != w[j] {
      if w[j] != d {
        WalkClimbs(c, net, d, w, i, j);
      }
    }
  }

  /** Loop freedom: whatever was lost, delayed, repeated or reordered, next hops never lead back. */
  lemma LoopFreedom(c: Config, net: Net)
    requires Safe(c) && Reachable(c, net)
    ensures LoopFree(net)
  {
    var run :| IsRun(c, run) && run[|run| - 1] == net;
    RunKeepsInv(c, run, |run| - 1);
    InvLoopFree(c, net);
  }

  /** A packet for d on its way while the tables change under it: at[k] is where it is and when[k] the
      state in which it is handed on. */
  ghost predicate Journey(run: seq<Net>, d: Addr, at: seq<Addr>, when: seq<nat>) {
    && |at| == |when| + 1
    && (forall k | 0 <= k < |when| :: when[k] < |run| && at[k] != d
                                      && HasRoute(run[when[k]], at[k], d)
                                      && NextHop(run[when[k]], at[k], d) == at[k + 1])
    && (forall k | 0 < k < |when| :: when[k - 1] <= when[k])
  }

  /** The knowledge of d at at[j] is strictly better than that at at[k], k < j, was. */
  predicate Climbs(run: seq<Net>, d: Addr, at: seq<Addr>, when: seq<nat>, k: nat, j: nat) {
    && k < j < |when| < |at| && when[k] < |run| && when[j] < |run|
    && HasRoute(run[when[k]], at[k], d) && HasRoute(run[when[j]], at[j], d)
    && Better(KeyAt(run[when[j]], at[j], d), KeyAt(run[when[k]], at[k], d))
  }

  predicate OneHopClimbs(run: seq<Net>, d: Addr, at: seq<Addr>, when: seq<nat>, k: nat) {
    Climbs(run, d, at, when, k, k + 1)
  }

  lemma JourneyHop(c: Config, run: seq<Net>, d: Addr, at: seq<Addr>, when: seq<nat>, k: nat)
    requires Safe(c) && IsRun(c, run) && Journey(run, d, at, when) && k + 1 < |when|
    ensures OneHopClimbs(run, d, at, when, k)
  {
    var before, now := when[k], when[k + 1];
    RunKeepsInv(c, run, before);
    assert RouteOk(run[before], at[k], d);
    RunImprovesKeys(c, run, before, now);
    assert AtLeast(KeyAt(run[now], at[k + 1], d), KeyAt(run[before], at[k + 1], d));
  }

  lemma {:induction false} HopsClimb(run: seq<Net>, d: Addr, at: seq<Addr>, when: seq<nat>, i: nat, j: nat)
    requires i < j < |when| && forall k: nat | k + 1 < |when| :: OneHopClimbs(run, d, at, when, k)
    ensures Climbs(run, d, at, when, i, j)
    decreases j
  {
    assert OneHopClimbs(run, d, at, when, j - 1);
    if i < j - 1 {
      HopsClimb(run, d, at, when, i, j - 1);
    }
  }

  /** Even then every hop strictly improves the knowledge of d, so a packet that comes back to
      a node finds a strictly better route there than the one it left by. */
  lemma JourneyClimbs(c: Config, run: seq<Net>, d: Addr, at: seq<Addr>, when: seq<nat>, i: nat, j: nat)
    requires Safe(c) && IsRun(c, run) && Journey(run, d, at, when) && i < j < |when|
    ensures Climbs(run, d, at, when, i, j)
  {
    forall k: nat | k + 1 < |when| ensures OneHopClimbs(run, d, at, when, k) {
      JourneyHop(c, run, d, at, when, k);
    }
    HopsClimb(run, d, at, when, i, j);
  }

  // ----- the handlers' own assertions -----

  /** The assertions written into the handlers of ns-2.35/aodv/aodv.cc, for a node about to handle e. */
  predicate AssertsPass(s: Node, e: Event) {
    match e
    case Receive(_, m) => (
      match m
      case Rreq(_, _, _, _, _, _, _, _) =>
        var rt0 := Lookup(s.rtable, m.src);
        m.src == s.index || ReverseRoute(rt0, m) == rt0 || ReverseRoute(rt0, m).hops != INFINITY2
      case Rrep(_, _, _, _, _, _, _) =>
        var t := RecvReply(s, m).0.rtable;
        (Accepts(Lookup(s.rtable, m.dst), m) ==> t[m.dst].hops != INFINITY2)
        && (m.ipdst in t && t[m.ipdst].hops != INFINITY2 ==> t[m.ipdst].flag == Up)
      case Rerr(_, _) =>
        forall d | d in s.rtable && ErrorHits(s.rtable, d, m) ::
          s.rtable[d].flag == Up && s.rtable[d].seqno % 2 == 0
      case Hello(_) => RecvHello(s, m.from).seqno % 2 == 0
      case Hop(_, _, _) => true)
    case Data(_, pkt, _, _) =>
      var rt := Lookup(s.rtable, pkt.dst);
      (rt.flag == Up ==> rt.hops != INFINITY2) && (rt.flag != Up && pkt.src != s.index ==> rt.flag == Down)
    case Request(_, dst, _) =>
      s.seqno % 2 == 0 && (dst in s.rtable && s.rtable[dst].flag == Up ==> s.rtable[dst].hops != INFINITY2)
    case LoseLink(_, nbr) =>
      s.seqno % 2 == 0
      && forall d | d in s.rtable && UsesLink(s.rtable[d], nbr) :: s.rtable[d].flag == Up && s.rtable[d].seqno % 2 == 0
    case Expire(_, routes) =>
      forall d | d in s.rtable && s.rtable[d].flag == Up ::
        s.rtable[d].hops != INFINITY2 && (s.rtable[d].seqno + 1) % 2 == 1
    case _ => true
  }

  lemma AssertsNeverFail(c: Config, net: Net, e: Event)
    requires Safe(c) && Reachable(c, net) && Enabled(c, net, e)
    ensures AssertsPass(net.nodes[e.at], e)
  {
    var run :| IsRun(c, run) && run[|run| - 1] == net;
    RunKeepsInv(c, run, |run| - 1);
    var s := net.nodes[e.at];
    if e.Receive? {
      assert MsgOk(e.msg);
      if e.msg.Rrep? {
        if Accepts(Lookup(s.rtable, e.msg.dst), e.msg) {
          AcceptedHopsSmall(c, net, e.at, e.msg);
        }
        ReplyLegal(s, e.msg);
        assert NodeOk(RecvReply(s, e.msg).0);
      }
    }
  }

  /** In every reachable state routes are up exactly when they have a hop count, with an even sequence
      number when up and zero or an odd one when down; own sequence numbers are even. */
  lemma EntryStates(c: Config, net: Net, n: Addr)
    requires Safe(c) && Reachable(c, net) && n in net.nodes
    ensures Even(net.nodes[n].seqno)
    ensures forall d | d in net.nodes[n].rtable :: EntryOk(net.nodes[n].rtable[d])
  {
    var run :| IsRun(c, run) && run[|run| - 1] == net;
    RunKeepsInv(c, run, |run| - 1);
  }

  /** Why the network must not be too wide: a reply keeps the entry states exactly when, if it is taken,
      its hop count is below the value that means "no route". */
  lemma ReplyKeepsEntriesIff(s: Node, rp: Msg)
    requires NodeOk(s) && rp.Rrep? && MsgOk(rp)
    ensures NodeOk(RecvReply(s, rp).0) <==> (Accepts(Lookup(s.rtable, rp.dst), rp) ==> rp.hop < INFINITY2)
  {
    if Accepts(Lookup(s.rtable, rp.dst), rp) && rp.hop >= INFINITY2 {
      assert RecvReply(s, rp).0.rtable[rp.dst].hops == rp.hop;
    } else {
      ReplyLegal(s, rp);
    }
  }

  /** Messages in flight stay dominated by their sender, however old they are. */
  lemma MessageDominance(c: Config, net: Net, m: Msg)
    requires Safe(c) && Reachable(c, net) && m in net.flight && Advertises(m)
    ensures m.from in net.nodes
    ensures About(m) == m.from || Better(KeyAt(net, m.from, About(m)), Offer(m))
    ensures Offer(m).hops <= INFINITY2
  {
    var run :| IsRun(c, run) && run[|run| - 1] == net;
    RunKeepsInv(c, run, |run| - 1);
    if m.Rrep? {
      var p :| Traced(net, m.dst, Offer(m), p);
      DistinctFit(p, c.nodes);
    }
  }
}
