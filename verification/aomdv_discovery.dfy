// Route discovery comes to its end: on a line of up to 30 hops the request finds the destination, the answer finds its
// way back, and everybody on the line has a path to both ends.
module AomdvDiscovery {
  import opened Common
  import opened AomdvPaths
  import opened AomdvRtable
  import opened AomdvAgent
  import opened AomdvNetwork

  // ----- runs, event by event -----

  lemma InitialReachable(c: Config)
    ensures Reachable(c, Initial(c))
  {
    assert IsRun(c, [Initial(c)]);
  }

  lemma StepReachable(c: Config, net: Net, e: Event)
    requires Reachable(c, net) && Enabled(net, e)
    ensures Reachable(c, Apply(net, e))
  {
    var run :| IsRun(c, run) && run[|run| - 1] == net;
    var run' := run + [Apply(net, e)];
    forall i | 0 < i < |run'| ensures Step(run'[i - 1], run'[i]) {
      if i < |run| {
        assert Step(run[i - 1], run[i]);
      }
    }
    assert IsRun(c, run');
  }

  /** What one event changes. */
  ghost predicate Moved(net: Net, net': Net, at: Addr, s: Node, sent: seq<Msg>) {
    net'.nodes == net.nodes[at := s] && net.flight <= net'.flight && forall m | m in sent :: m in net'.flight
  }

  lemma Happens(c: Config, net: Net, e: Event, s: Node, sent: seq<Msg>) returns (net': Net)
    requires Reachable(c, net) && Enabled(net, e) && Handle(net.nodes[e.at], e) == (s, sent)
    ensures Reachable(c, net') && Moved(net, net', e.at, s, sent)
  {
    StepReachable(c, net, e);
    net' := Apply(net, e);
  }

  /** Up to 31 different nodes. */
  ghost predicate Line(c: Config, xs: seq<Addr>) {
    2 <= |xs| <= NETWORK_DIAMETER + 1 && Distinct(xs) && forall i | 0 <= i < |xs| :: xs[i] in c.nodes
  }

  // ----- the nodes during a discovery -----

  function Asker(x: Addr, d: Addr, l: Limits): Node {
    Node(x, l, 4, 2, map[d := FreshEntry], map[], {})
  }

  function Asking(x: Addr, d: Addr): Msg {
    Rreq(x, 0, 1, d, 0, x, 4, 0, NETWORK_DIAMETER)
  }

  /** The request of d for t, as a node passes it on. */
  function Passed(x: Addr, hops: nat, d: Addr, t: Addr, first: Addr, ttl: int): Msg {
    Rreq(x, hops, 1, t, 0, d, 4, first, ttl)
  }

  /** A node that passed it on. */
  function Relayer(x: Addr, from: Addr, hops: nat, d: Addr, first: Addr, l: Limits): Node {
    Node(x, l, 2, 1, map[d := Entry(4, hops, [Path(from, hops, REV_ROUTE_LIFE, first)], 0, Up, false)],
         map[(d, 1) := false], {})
  }

  /** A destination that was asked. */
  function Asked(d: Addr, from: Addr, hops: nat, s: Addr, first: Addr, l: Limits): Node {
    Node(d, l, 2, 1, map[s := Entry(4, INFINITY, [Path(from, hops, REV_ROUTE_LIFE, first)], 0, Up, false)],
         map[(s, 1) := false], {})
  }

  function Answer(from: Addr, to: Addr, s: Addr, hops: nat, d: Addr, last: Addr, ttl: int): Msg {
    Rrep(from, to, s, hops, d, 2, 1, last, MY_ROUTE_TIMEOUT, ttl)
  }

  /** A node that passed the answer on. */
  function Knower(x: Addr, s: Addr, back: Addr, away: nat, first: Addr, d: Addr, to: Addr, hops: nat, last: Addr,
                  l: Limits): Node
  {
    Node(x, l, 2, 1,
         map[s := Entry(4, away, [Path(back, away, ACTIVE_ROUTE_TIMEOUT, first)], 0, Up, false),
             d := Entry(2, hops, [Path(to, hops, MY_ROUTE_TIMEOUT, last)], 0, Up, true)],
         map[(s, 1) := true], {})
  }

  function Source(s: Addr, d: Addr, to: Addr, hops: nat, last: Addr, l: Limits): Node {
    Node(s, l, 4, 2, map[d := Entry(2, INFINITY, [Path(to, hops, MY_ROUTE_TIMEOUT, last)], 0, Up, false)], map[], {})
  }

  lemma Asks(x: Addr, d: Addr, l: Limits)
    ensures Resolve(InitialNode(x, l), d, true, false, NETWORK_DIAMETER, 0.0) == (Asker(x, d, l), [Asking(x, d)])
  {
  }

  lemma OneHop(p: Path)
    ensures MaxHop([p]) == (if p.hopcount == 0 then INFINITY2 else p.hopcount) && MinHop([p]) <= p.hopcount
    ensures p.hopcount <= INFINITY2 ==> MinHop([p]) == p.hopcount
  {
    assert [p][..0] == [] && [p][0] == p;
    assert Longest([p]) == if p.hopcount > Longest([]) then p.hopcount else Longest([]);
    assert MinHop([p]) == if p.hopcount < MinHop([]) then p.hopcount else MinHop([]);
  }

  /** The first hop a node notes for a request: itself if it heard it from its source. */
  function Noted(x: Addr, hops: nat, first: Addr): Addr {
    if hops == 0 then x else first
  }

  lemma RelayerPassesOn(x: Addr, from: Addr, hops: nat, d: Addr, t: Addr, first: Addr, ttl: int, l: Limits)
    requires x != d && x != t && t != d && ttl > 1 && hops <= INFINITY2
    ensures RecvRequest(InitialNode(x, l), Passed(from, hops, d, t, first, ttl), 0.0) ==
            (Relayer(x, from, hops + 1, d, Noted(x, hops, first), l),
             [Passed(x, U8(hops + 1), d, t, Noted(x, hops, first), ttl - 1)])
  {
    var s, rq := InitialNode(x, l), Passed(from, hops, d, t, first, ttl);
    var p := Path(from, hops + 1, REV_ROUTE_LIFE, Noted(x, hops, first));
    OneHop(p);
    var h := Heard(s, rq, 0.0);
    assert h.rtable == map[d := Entry(4, INFINITY, [p], 0, Up, false)] && h.bcache == map[(d, 1) := false];
    var r := Respond(h, rq, true, false, 0.0);
    assert r.0.rtable == Relayer(x, from, hops + 1, d, Noted(x, hops, first), l).rtable;
  }

  lemma DestAsked(d: Addr, from: Addr, hops: nat, s: Addr, first: Addr, ttl: int, l: Limits)
    requires d != s
    ensures RecvRequest(InitialNode(d, l), Passed(from, hops, s, d, first, ttl), 0.0) ==
            (Asked(d, from, hops + 1, s, Noted(d, hops, first), l), [Answer(d, from, s, 0, d, from, NETWORK_DIAMETER)])
  {
    var r := RecvRequest(InitialNode(d, l), Passed(from, hops, s, d, first, ttl), 0.0).0;
    assert r.rtable == Asked(d, from, hops + 1, s, Noted(d, hops, first), l).rtable && r.bcache == map[(s, 1) := false];
  }

  lemma AnswerRelayed(x: Addr, s: Addr, back: Addr, away: nat, first: Addr, d: Addr, to: Addr, hops: nat, last: Addr,
                      ttl: int, l: Limits)
    requires x != s && x != d && s != d && 1 <= hops < INFINITY2 && ttl > 1
    ensures RecvReply(Relayer(x, back, away, s, first, l), Answer(to, x, s, hops - 1, d, last, ttl), 0.0) ==
            (Knower(x, s, back, away, first, d, to, hops, last, l), [Answer(x, back, s, hops, d, last, ttl - 1)])
  {
    var n, rp := Relayer(x, back, away, s, first, l), Answer(to, x, s, hops - 1, d, last, ttl);
    var p := Path(to, hops, MY_ROUTE_TIMEOUT, last);
    OneHop(p);
    assert ForwardRoute(n, rp, 0.0) == Taken(Entry(2, INFINITY, [p], 0, Up, false));
    var h := n.(rtable := n.rtable[d := Entry(2, INFINITY, [p], 0, Up, false)]);
    assert CanRelay(h, rp) && RecvReply(n, rp, 0.0) == Relay(h, rp, 0.0);
    var e := h.rtable[s];
    assert Used(e, 0.0).paths == [Path(back, away, ACTIVE_ROUTE_TIMEOUT, first)];
    var r := Relay(h, rp, 0.0).0;
    assert r.rtable == Knower(x, s, back, away, first, d, to, hops, last, l).rtable;
    assert r.bcache == map[(s, 1) := true];
  }

  lemma AnswerTaken(s: Addr, d: Addr, to: Addr, hops: nat, last: Addr, ttl: int, l: Limits)
    requires s != d && hops >= 1
    ensures RecvReply(Asker(s, d, l), Answer(to, s, s, hops - 1, d, last, ttl), 0.0)
            == (Source(s, d, to, hops, last, l), [])
  {
    var r := RecvReply(Asker(s, d, l), Answer(to, s, s, hops - 1, d, last, ttl), 0.0).0;
    assert r.rtable == Source(s, d, to, hops, last, l).rtable;
  }

  // ----- the request goes out -----

  function Dest(xs: seq<Addr>): Addr
    requires xs != []
  {
    xs[|xs| - 1]
  }

  ghost predicate Fresh(c: Config, net: Net, xs: seq<Addr>, from: nat) {
    forall j | from <= j < |xs| :: xs[j] in net.nodes && net.nodes[xs[j]] == InitialNode(xs[j], c.limits)
  }

  /** The nodes from a to b - 1 have passed the request on. */
  ghost predicate PassedBy(c: Config, net: Net, xs: seq<Addr>, a: nat, b: nat)
    requires 1 <= a && b <= |xs| && 2 <= |xs|
  {
    forall j | a <= j < b ::
      xs[j] in net.nodes && net.nodes[xs[j]] == Relayer(xs[j], xs[j - 1], j, xs[0], xs[1], c.limits)
  }

  /** What node i has sent of the request. */
  function SentBy(xs: seq<Addr>, i: nat): Msg
    requires 2 <= |xs| && i < |xs|
  {
    Passed(xs[i], i, xs[0], Dest(xs), if i == 0 then 0 else xs[1], NETWORK_DIAMETER - i)
  }

  ghost predicate Reached(c: Config, net: Net, xs: seq<Addr>, i: nat)
    requires Line(c, xs) && i < |xs| - 1
  {
    && Reachable(c, net) && net.nodes.Keys == c.nodes
    && net.nodes[xs[0]] == Asker(xs[0], Dest(xs), c.limits)
    && PassedBy(c, net, xs, 1, i + 1) && Fresh(c, net, xs, i + 1) && SentBy(xs, i) in net.flight
  }

  lemma Starts(c: Config, xs: seq<Addr>) returns (net: Net)
    requires Line(c, xs)
    ensures Reached(c, net, xs, 0)
  {
    var s, d := xs[0], Dest(xs);
    InitialReachable(c);
    Asks(s, d, c.limits);
    var e := Data(s, d, true, false, NETWORK_DIAMETER, 0.0);
    net := Happens(c, Initial(c), e, Asker(s, d, c.limits), [Asking(s, d)]);
  }

  lemma {:induction false} GoesOut(c: Config, xs: seq<Addr>, i: nat) returns (net: Net)
    requires Line(c, xs) && i < |xs| - 1
    ensures Reached(c, net, xs, i)
  {
    hide RecvRequest;
    if i == 0 {
      net := Starts(c, xs);
    } else {
      var n := GoesOut(c, xs, i - 1);
      var x, from, m := xs[i], xs[i - 1], SentBy(xs, i - 1);
      RelayerPassesOn(x, from, i - 1, xs[0], Dest(xs), m.firstHop, m.ttl, c.limits);
      net := Happens(c, n, Receive(x, m, 0.0), Relayer(x, from, i, xs[0], xs[1], c.limits), [SentBy(xs, i)]);
    }
  }

  // ----- the answer comes back -----

  /** The nodes from i to the last but one know both ends. */
  ghost predicate Known(c: Config, net: Net, xs: seq<Addr>, i: nat)
    requires 1 <= i && 2 <= |xs|
  {
    forall j | i <= j < |xs| - 1 :: xs[j] in net.nodes && net.nodes[xs[j]] ==
      Knower(xs[j], xs[0], xs[j - 1], j, xs[1], Dest(xs), xs[j + 1], |xs| - 1 - j, xs[|xs| - 2], c.limits)
  }

  /** What node i has sent of the answer. */
  function AnswerOf(xs: seq<Addr>, i: nat): Msg
    requires 2 <= |xs| && 1 <= i < |xs|
  {
    var k := |xs| - 1;
    Answer(xs[i], xs[i - 1], xs[0], k - i, Dest(xs), xs[k - 1], NETWORK_DIAMETER - (k - i))
  }

  ghost predicate Answered(c: Config, net: Net, xs: seq<Addr>, i: nat)
    requires Line(c, xs) && 1 <= i < |xs|
  {
    var s, d, k := xs[0], Dest(xs), |xs| - 1;
    && Reachable(c, net) && net.nodes.Keys == c.nodes
    && net.nodes[s] == Asker(s, d, c.limits) && PassedBy(c, net, xs, 1, i) && Known(c, net, xs, i)
    && net.nodes[d] == Asked(d, xs[k - 1], k, s, xs[1], c.limits)
    && AnswerOf(xs, i) in net.flight
  }

  lemma Arrives(c: Config, xs: seq<Addr>) returns (net: Net)
    requires Line(c, xs)
    ensures Answered(c, net, xs, |xs| - 1)
  {
    hide RecvRequest;
    var s, d, k := xs[0], Dest(xs), |xs| - 1;
    var n := GoesOut(c, xs, k - 1);
    var m := SentBy(xs, k - 1);
    DestAsked(d, xs[k - 1], k - 1, s, m.firstHop, m.ttl, c.limits);
    net := Happens(c, n, Receive(d, m, 0.0), Asked(d, xs[k - 1], k, s, xs[1], c.limits), [AnswerOf(xs, k)]);
  }

  lemma RelayedOn(c: Config, n: Net, xs: seq<Addr>, i: nat) returns (net: Net)
    requires Line(c, xs) && 1 <= i < |xs| - 1 && Answered(c, n, xs, i + 1)
    ensures Answered(c, net, xs, i)
  {
    hide RecvReply;
    var k := |xs| - 1;
    assert n.nodes[xs[i]] == Relayer(xs[i], xs[i - 1], i, xs[0], xs[1], c.limits);
    net := HandsOn(c, n, xs[i], xs[0], xs[i - 1], i, xs[1], Dest(xs), xs[i + 1], k - i, xs[k - 1],
                   NETWORK_DIAMETER - (k - i - 1));
    AnsweredNext(c, n, net, xs, i);
  }

  lemma HandsOn(c: Config, n: Net, x: Addr, s: Addr, back: Addr, away: nat, first: Addr, d: Addr, to: Addr, hops: nat,
                last: Addr, ttl: int) returns (net: Net)
    requires Reachable(c, n) && x in n.nodes && n.nodes[x] == Relayer(x, back, away, s, first, c.limits)
    requires x != to && x != s && x != d && s != d && 1 <= hops < INFINITY2 && ttl > 1
    requires Answer(to, x, s, hops - 1, d, last, ttl) in n.flight
    ensures Reachable(c, net)
    ensures Moved(n, net, x, Knower(x, s, back, away, first, d, to, hops, last, c.limits),
                  [Answer(x, back, s, hops, d, last, ttl - 1)])
  {
    hide RecvReply, Reachable;
    AnswerRelayed(x, s, back, away, first, d, to, hops, last, ttl, c.limits);
    net := Happens(c, n, Receive(x, Answer(to, x, s, hops - 1, d, last, ttl), 0.0),
                   Knower(x, s, back, away, first, d, to, hops, last, c.limits),
                   [Answer(x, back, s, hops, d, last, ttl - 1)]);
  }

  lemma AnsweredNext(c: Config, n: Net, net: Net, xs: seq<Addr>, i: nat)
    requires Line(c, xs) && 1 <= i < |xs| - 1 && Answered(c, n, xs, i + 1) && Reachable(c, net)
    requires var k := |xs| - 1;
             Moved(n, net, xs[i],
                   Knower(xs[i], xs[0], xs[i - 1], i, xs[1], Dest(xs), xs[i + 1], k - i, xs[k - 1], c.limits),
                   [AnswerOf(xs, i)])
    ensures Answered(c, net, xs, i)
  {
    hide Knower, Relayer, Asker, Asked, AnswerOf, Reachable;
  }

  lemma {:induction false} ComesBack(c: Config, xs: seq<Addr>, i: nat) returns (net: Net)
    requires Line(c, xs) && 1 <= i < |xs|
    ensures Answered(c, net, xs, i)
    decreases |xs| - i
  {
    if i == |xs| - 1 {
      net := Arrives(c, xs);
    } else {
      var n := ComesBack(c, xs, i + 1);
      net := RelayedOn(c, n, xs, i);
    }
  }

  // ----- everybody knows -----

  /** The one path of n to d leads over `next` and has so many hops. */
  predicate Routed(net: Net, n: Addr, d: Addr, next: Addr, hops: nat) {
    && n in net.nodes && EntryAt(net, n, d).flag == Up && |EntryAt(net, n, d).paths| == 1
    && EntryAt(net, n, d).paths[0].nexthop == next && EntryAt(net, n, d).paths[0].hopcount == hops
  }

  /** Every node on the line is exactly as many hops away from both ends as it is. */
  predicate WaysKnown(net: Net, xs: seq<Addr>)
    requires xs != []
  {
    && (forall i | 0 <= i < |xs| - 1 :: Routed(net, xs[i], Dest(xs), xs[i + 1], |xs| - 1 - i))
    && (forall i | 0 < i < |xs| :: Routed(net, xs[i], xs[0], xs[i - 1], i))
  }

  /** On every line of up to 30 hops there is a run after which everybody has a path to both ends. */
  lemma Discovery(c: Config, xs: seq<Addr>) returns (net: Net)
    requires Line(c, xs)
    ensures Reachable(c, net) && WaysKnown(net, xs)
  {
    hide RecvReply;
    var s, d, k := xs[0], Dest(xs), |xs| - 1;
    var n := ComesBack(c, xs, 1);
    var rp := AnswerOf(xs, 1);
    AnswerTaken(s, d, xs[1], k, xs[k - 1], rp.ttl, c.limits);
    net := Happens(c, n, Receive(s, rp, 0.0), Source(s, d, xs[1], k, xs[k - 1], c.limits), []);
    KnowsWays(c, net, xs);
  }

  lemma KnowsWays(c: Config, net: Net, xs: seq<Addr>)
    requires Line(c, xs) && net.nodes.Keys == c.nodes && Known(c, net, xs, 1) && EndsKnow(c, net, xs)
    ensures WaysKnown(net, xs)
  {
    hide Routed, EndsKnow, Known;
    forall i | 0 <= i < |xs| - 1 ensures Routed(net, xs[i], Dest(xs), xs[i + 1], |xs| - 1 - i) {
      KnowsForward(c, net, xs, i);
    }
    forall i | 0 < i < |xs| ensures Routed(net, xs[i], xs[0], xs[i - 1], i) {
      KnowsBack(c, net, xs, i);
    }
  }

  /** The ends of the line know the way to each other. */
  ghost predicate EndsKnow(c: Config, net: Net, xs: seq<Addr>)
    requires |xs| >= 2
  {
    var s, d, k := xs[0], Dest(xs), |xs| - 1;
    && s in net.nodes && net.nodes[s] == Source(s, d, xs[1], k, xs[k - 1], c.limits)
    && d in net.nodes && net.nodes[d] == Asked(d, xs[k - 1], k, s, xs[1], c.limits)
  }

  lemma KnowsForward(c: Config, net: Net, xs: seq<Addr>, i: nat)
    requires Line(c, xs) && net.nodes.Keys == c.nodes && Known(c, net, xs, 1) && EndsKnow(c, net, xs)
    requires i < |xs| - 1
    ensures Routed(net, xs[i], Dest(xs), xs[i + 1], |xs| - 1 - i)
  {
    var s, d, k := xs[0], Dest(xs), |xs| - 1;
    assert s != d;
    if i > 0 {
      assert net.nodes[xs[i]] == Knower(xs[i], s, xs[i - 1], i, xs[1], d, xs[i + 1], k - i, xs[k - 1], c.limits);
    }
  }

  lemma KnowsBack(c: Config, net: Net, xs: seq<Addr>, i: nat)
    requires Line(c, xs) && net.nodes.Keys == c.nodes && Known(c, net, xs, 1) && EndsKnow(c, net, xs)
    requires 0 < i < |xs|
    ensures Routed(net, xs[i], xs[0], xs[i - 1], i)
  {
    var s, d, k := xs[0], Dest(xs), |xs| - 1;
    assert s != d;
    if i < k {
      assert net.nodes[xs[i]] == Knower(xs[i], s, xs[i - 1], i, xs[1], d, xs[i + 1], k - i, xs[k - 1], c.limits);
    }
  }
}
