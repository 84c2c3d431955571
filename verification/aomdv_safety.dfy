// Loop freedom of AOMDV along any choice of stored paths, on networks of up to 256 nodes: there no hop count is ever
// cut off on its way into a message.
module AomdvSafety {
  import opened Common
  import opened AomdvPaths
  import opened AomdvRtable
  import opened AomdvAgent
  import opened AomdvNetwork
  import opened AomdvRuns

  /** Up to this many nodes no hop count is taken that would be more than INFINITY2 one hop on. */
  const MAX_NODES: nat := INFINITY2 + 1

  predicate Safe(c: Config) {
    |c.nodes| <= MAX_NODES
  }

  // ----- where offers came over -----

  /** The entry is newer than the offer, or is the very advertisement the offer repeats. */
  predicate Stands(e: Entry, seqno: nat, hops: nat) {
    e.seqno > seqno || (e.seqno == seqno && e.adv == hops < INFINITY)
  }

  /** The offer (seqno, hops) about d can be traced back over `hops` distinct nodes, nearest first. */
  ghost predicate Traced(net: Net, d: Addr, seqno: nat, hops: nat, p: seq<Addr>) {
    && |p| == hops
    && Distinct(p)
    && forall i | 0 <= i < |p| :: p[i] in net.nodes && Stands(EntryAt(net, p[i], d), seqno, hops - i)
  }

  ghost predicate FlightTraced(net: Net) {
    forall m | m in net.flight && Advertises(m) :: exists p :: Traced(net, About(m), OfferSeq(m), OfferHops(m), p)
  }

  /** An advertised hop count is traced back starting with the node that advertises it. */
  ghost predicate AdvTraced(net: Net, n: Addr, d: Addr)
    requires n in net.nodes
  {
    var e := EntryAt(net, n, d);
    e.seqno > 0 && e.adv != INFINITY ==> exists p :: Traced(net, d, e.seqno, e.adv, p)
  }

  /** All hop counts fit into a message. */
  ghost predicate Small(e: Entry) {
    (e.adv == INFINITY || e.adv <= INFINITY2) && forall p | p in e.paths :: p.hopcount <= INFINITY2
  }

  ghost predicate TraceInv(c: Config, net: Net) {
    && Inv(c, net)
    && FlightTraced(net)
    && (forall n, d | n in net.nodes :: AdvTraced(net, n, d))
    && (forall n, d | n in net.nodes :: Small(EntryAt(net, n, d)))
  }

  lemma TracedKept(net: Net, net': Net, d: Addr, seqno: nat, hops: nat, p: seq<Addr>)
    requires NetGrows(net, net') && Traced(net, d, seqno, hops, p)
    ensures Traced(net', d, seqno, hops, p)
  {
    forall i | 0 <= i < |p| ensures Stands(EntryAt(net', p[i], d), seqno, hops - i) {
      assert Stands(EntryAt(net, p[i], d), seqno, hops - i);
      assert EntryGrows(EntryAt(net, p[i], d), EntryAt(net', p[i], d));
    }
  }

  // ----- hop counts stay small -----

  /** A node that takes an offer is not among the nodes the offer came over. */
  lemma TakerNotOnTrace(net: Net, n: Addr, d: Addr, seqno: nat, hops: nat, p: seq<Addr>)
    requires n in net.nodes && Traced(net, d, seqno, hops, p)
    requires Takes(EntryAt(net, n, d), seqno, hops)
    ensures n !in p
  {
  }

  /** Nor is the node it is about. */
  lemma SubjectNotOnTrace(net: Net, d: Addr, seqno: nat, hops: nat, p: seq<Addr>)
    requires d in net.nodes && net.nodes[d].index == d && NodeOk(net.nodes[d]) && seqno > 0
    requires Traced(net, d, seqno, hops, p)
    ensures d !in p
  {
  }

  /** An offer that is taken came over fewer nodes than there are besides its taker and the one it is about. */
  lemma TakenBelowNodes(c: Config, net: Net, n: Addr, m: Msg)
    requires TraceInv(c, net) && n in net.nodes && m in net.flight && Advertises(m) && n != About(m)
    requires Takes(EntryAt(net, n, About(m)), OfferSeq(m), OfferHops(m))
    ensures OfferHops(m) + 1 < |c.nodes|
  {
    var d := About(m);
    assert OfferOk(net, m) && MsgOk(m);
    var p :| Traced(net, d, OfferSeq(m), OfferHops(m), p);
    TakerNotOnTrace(net, n, d, OfferSeq(m), OfferHops(m), p);
    SubjectNotOnTrace(net, d, OfferSeq(m), OfferHops(m), p);
    DistinctFit(p + [n, d], c.nodes);
  }

  // ----- one step -----

  lemma LengthenTrace(net: Net, n: Addr, d: Addr, seqno: nat, hops: nat, p: seq<Addr>)
    requires Traced(net, d, seqno, hops, p) && n !in p && n in net.nodes && Stands(EntryAt(net, n, d), seqno, hops + 1)
    ensures Traced(net, d, seqno, hops + 1, [n] + p)
  {
    var q := [n] + p;
    forall i | 0 <= i < |q| ensures q[i] in net.nodes && Stands(EntryAt(net, q[i], d), seqno, hops + 1 - i) {
      if i > 0 {
        assert q[i] == p[i - 1];
        assert Stands(EntryAt(net, p[i - 1], d), seqno, hops - (i - 1));
      }
    }
  }

  /** A node with a path is not among the nodes the path's offer came over: it would have advertised a shorter one. */
  lemma HolderNotOnTrace(net: Net, n: Addr, l: Limits, d: Addr, p: Path, q: seq<Addr>)
    requires n in net.nodes && EntryOk(l, EntryAt(net, n, d)) && p in EntryAt(net, n, d).paths
    requires Traced(net, d, EntryAt(net, n, d).seqno, p.hopcount - 1, q)
    ensures n !in q
  {
  }

  /** What a node advertises of one of its paths is traced over that path. */
  lemma NewAdvTraced(net: Net, at: Addr, heard: set<Msg>, r: (Node, seq<Msg>), d: Addr, p: Path)
    requires at in net.nodes && heard <= net.flight && Legal(net.nodes[at], heard, r)
    requires PathsSourced(net) && FlightOk(net) && FlightTraced(net) && NetGrows(net, After(net, at, r))
    requires p in Lookup(r.0.rtable, d).paths && p.hopcount == Lookup(r.0.rtable, d).adv
    ensures exists q :: Traced(After(net, at, r), d, Lookup(r.0.rtable, d).seqno, p.hopcount, q)
  {
    var net' := After(net, at, r);
    var e' := Lookup(r.0.rtable, d);
    assert EntryLegal(net.nodes[at].limits, EntryAt(net, at, d), e', d, heard);
    var m := PathSource(net, at, heard, r, d, p);
    var q :| Traced(net, d, OfferSeq(m), OfferHops(m), q);
    TracedKept(net, net', d, OfferSeq(m), OfferHops(m), q);
    HolderNotOnTrace(net', at, net.nodes[at].limits, d, p, q);
    LengthenTrace(net', at, d, OfferSeq(m), OfferHops(m), q);
  }

  lemma AdvKept(net: Net, at: Addr, heard: set<Msg>, r: (Node, seq<Msg>), n: Addr, d: Addr)
    requires at in net.nodes && heard <= net.flight && Legal(net.nodes[at], heard, r)
    requires PathsSourced(net) && FlightOk(net) && FlightTraced(net) && NetGrows(net, After(net, at, r))
    requires n in net.nodes && AdvTraced(net, n, d)
    ensures AdvTraced(After(net, at, r), n, d)
  {
    var net' := After(net, at, r);
    var e, e' := EntryAt(net, n, d), EntryAt(net', n, d);
    if e'.seqno > 0 && e'.adv != INFINITY {
      if e.seqno == e'.seqno && e.adv == e'.adv {
        var p :| Traced(net, d, e.seqno, e.adv, p);
        TracedKept(net, net', d, e.seqno, e.adv, p);
      } else {
        assert EntryLegal(net.nodes[at].limits, e, e', d, heard);
        assert AdvOrigin(e, e');
        var p :| p in e'.paths && p.hopcount == e'.adv;
        NewAdvTraced(net, at, heard, r, d, p);
      }
    }
  }

  lemma PathStaysSmall(c: Config, net: Net, at: Addr, heard: set<Msg>, r: (Node, seq<Msg>), d: Addr, p: Path)
    requires Safe(c) && TraceInv(c, net) && at in net.nodes && heard <= net.flight && Legal(net.nodes[at], heard, r)
    requires p in Lookup(r.0.rtable, d).paths
    ensures p.hopcount <= INFINITY2
  {
    var e, e' := EntryAt(net, at, d), Lookup(r.0.rtable, d);
    assert EntryLegal(net.nodes[at].limits, e, e', d, heard) && Small(e);
    assert PathOrigin(net.nodes[at].limits, e, e', d, p, heard);
    if m :| m in heard && Source(m, d, e'.seqno, p) && Takes(e, e'.seqno, OfferHops(m)) {
      assert at != d;
      TakenBelowNodes(c, net, at, m);
    }
  }

  lemma StaysSmall(c: Config, net: Net, at: Addr, heard: set<Msg>, r: (Node, seq<Msg>), d: Addr)
    requires Safe(c) && TraceInv(c, net) && at in net.nodes && heard <= net.flight && Legal(net.nodes[at], heard, r)
    ensures Small(Lookup(r.0.rtable, d))
  {
    var e, e' := EntryAt(net, at, d), Lookup(r.0.rtable, d);
    assert EntryLegal(net.nodes[at].limits, e, e', d, heard) && Small(e) && AdvOrigin(e, e');
    forall p | p in e'.paths ensures p.hopcount <= INFINITY2 {
      PathStaysSmall(c, net, at, heard, r, d, p);
    }
  }

  lemma FlightStaysTraced(net: Net, at: Addr, heard: set<Msg>, r: (Node, seq<Msg>))
    requires at in net.nodes && net.nodes[at].index == at && Legal(net.nodes[at], heard, r)
    requires FlightTraced(net) && NetGrows(net, After(net, at, r))
    requires forall d :: AdvTraced(After(net, at, r), at, d) && Small(Lookup(r.0.rtable, d))
    ensures FlightTraced(After(net, at, r))
  {
    var net' := After(net, at, r);
    forall m | m in net'.flight && Advertises(m)
      ensures exists p :: Traced(net', About(m), OfferSeq(m), OfferHops(m), p)
    {
      if m in r.1 {
        SentTraced(net, at, heard, r, m);
      } else {
        var p :| Traced(net, About(m), OfferSeq(m), OfferHops(m), p);
        TracedKept(net, net', About(m), OfferSeq(m), OfferHops(m), p);
      }
    }
  }

  lemma SentTraced(net: Net, at: Addr, heard: set<Msg>, r: (Node, seq<Msg>), m: Msg)
    requires at in net.nodes && net.nodes[at].index == at && Legal(net.nodes[at], heard, r)
    requires m in r.1 && Advertises(m)
    requires forall d :: AdvTraced(After(net, at, r), at, d) && Small(Lookup(r.0.rtable, d))
    ensures exists p :: Traced(After(net, at, r), About(m), OfferSeq(m), OfferHops(m), p)
  {
    assert SentOk(r.0, m);
    if About(m) == at {
      assert Traced(After(net, at, r), at, OfferSeq(m), 0, []);
    } else {
      assert AdvTraced(After(net, at, r), at, About(m)) && Small(Lookup(r.0.rtable, About(m)));
    }
  }

  lemma LegalKeepsTraces(c: Config, net: Net, at: Addr, heard: set<Msg>, r: (Node, seq<Msg>))
    requires Safe(c) && TraceInv(c, net) && at in net.nodes && heard <= net.flight && Legal(net.nodes[at], heard, r)
    ensures TraceInv(c, After(net, at, r))
  {
    var net' := After(net, at, r);
    LegalKeepsInv(c, net, at, heard, r);
    forall n, d | n in net'.nodes ensures AdvTraced(net', n, d) {
      AdvKept(net, at, heard, r, n, d);
    }
    forall d ensures Small(Lookup(r.0.rtable, d)) {
      StaysSmall(c, net, at, heard, r, d);
    }
    FlightStaysTraced(net, at, heard, r);
  }

  lemma StepKeepsTraces(c: Config, net: Net, net': Net)
    requires Safe(c) && TraceInv(c, net) && Step(net, net')
    ensures TraceInv(c, net')
  {
    var at, heard, r := StepLegal(c, net, net');
    LegalKeepsTraces(c, net, at, heard, r);
  }

  lemma {:induction false} RunKeepsTraces(c: Config, run: seq<Net>, i: nat)
    requires Safe(c) && IsRun(c, run) && i < |run|
    ensures TraceInv(c, run[i])
  {
    if i == 0 {
      InitialInv(c);
      assert forall n, d | n in run[0].nodes :: EntryAt(run[0], n, d) == FreshEntry;
    } else {
      RunKeepsTraces(c, run, i - 1);
      StepKeepsTraces(c, run[i - 1], run[i]);
    }
  }

  // ----- loop freedom -----

  /** e knows d better than f: newer, or under the same number with fewer advertised hops. */
  predicate Nearer(e: Entry, f: Entry) {
    e.seqno > f.seqno || (e.seqno == f.seqno && e.adv < f.adv)
  }

  lemma PathClimbs(c: Config, net: Net, n: Addr, d: Addr, to: Addr)
    requires TraceInv(c, net) && HasPath(net, n, d, to) && to != d
    ensures to in net.nodes && Nearer(EntryAt(net, to, d), EntryAt(net, n, d))
    ensures EntryAt(net, to, d).seqno == EntryAt(net, n, d).seqno ==> EntryAt(net, to, d).adv != INFINITY
  {
    var e := EntryAt(net, n, d);
    assert EntryOk(c.limits, e) && Small(e) && Small(EntryAt(net, to, d));
    var p :| p in e.paths && p.nexthop == to;
    BehindPath(net, n, d, p);
  }

  lemma {:induction false} WalkClimbs(c: Config, net: Net, d: Addr, w: seq<Addr>, i: nat, j: nat)
    requires TraceInv(c, net) && Walk(net, d, w) && i < j < |w| && w[j] != d
    ensures w[i] in net.nodes && w[j] in net.nodes
    ensures Nearer(EntryAt(net, w[j], d), EntryAt(net, w[i], d))
    decreases j
  {
    assert HasPath(net, w[j - 1], d, w[j]);
    PathClimbs(c, net, w[j - 1], d, w[j]);
    if i < j - 1 {
      WalkClimbs(c, net, d, w, i, j - 1);
    }
  }

  /** Loop freedom: whichever of its stored paths each node picks, a packet never comes back. */
  lemma LoopFreedom(c: Config, net: Net)
    requires Safe(c) && Reachable(c, net)
    ensures LoopFree(net)
  {
    var run :| IsRun(c, run) && run[|run| - 1] == net;
    RunKeepsTraces(c, run, |run| - 1);
    forall d: Addr, w: seq<Addr>, i, j | Walk(net, d, w) && 0 <= i < j < |w| ensures w[i] != w[j] {
      if w[j] != d {
        WalkClimbs(c, net, d, w, i, j);
      }
    }
  }

  /** A packet for d on its way while the tables change: in state when[k] the node at[k] hands it on. */
  ghost predicate Journey(run: seq<Net>, d: Addr, at: seq<Addr>, when: seq<nat>) {
    && |at| == |when| + 1
    && (forall k | 0 <= k < |when| :: when[k] < |run| && at[k] != d && HasPath(run[when[k]], at[k], d, at[k + 1]))
    && (forall k | 0 < k < |when| :: when[k - 1] <= when[k])
  }

  /** The hop from at[k] to at[j], j > k, leads to a strictly nearer entry. */
  predicate Climbs(run: seq<Net>, d: Addr, at: seq<Addr>, when: seq<nat>, k: nat, j: nat) {
    && k < j < |when| < |at| && when[k] < |run| && when[j] < |run|
    && at[k] in run[when[k]].nodes && at[j] in run[when[j]].nodes
    && Nearer(EntryAt(run[when[j]], at[j], d), EntryAt(run[when[k]], at[k], d))
  }

  predicate OneHopClimbs(run: seq<Net>, d: Addr, at: seq<Addr>, when: seq<nat>, k: nat) {
    Climbs(run, d, at, when, k, k + 1)
  }

  lemma JourneyHop(c: Config, run: seq<Net>, d: Addr, at: seq<Addr>, when: seq<nat>, k: nat)
    requires Safe(c) && IsRun(c, run) && Journey(run, d, at, when) && k + 1 < |when|
    ensures OneHopClimbs(run, d, at, when, k)
  {
    var before, now := when[k], when[k + 1];
    assert HasPath(run[before], at[k], d, at[k + 1]);
    RunKeepsTraces(c, run, before);
    PathClimbs(c, run[before], at[k], d, at[k + 1]);
    RunGrows(c, run, before, now);
    assert EntryGrows(EntryAt(run[before], at[k + 1], d), EntryAt(run[now], at[k + 1], d));
  }

  lemma {:induction false} HopsClimb(run: seq<Net>, d: Addr, at: seq<Addr>, when: seq<nat>, i: nat, j: nat)
    requires i < j < |when| && forall k: nat | k + 1 < |when| :: OneHopClimbs(run, d, at, when, k)
    ensures Climbs(run, d, at, when, i, j)
    decreases j
  {
    assert OneHopClimbs(run, d, at, when, j - 1);
    if i < j - 1 {
      HopsClimb(run, d, at, when, i, j - 1);
    }
  }

  /** Even then every hop leads to a strictly nearer entry, and so do any number of hops. */
  lemma JourneyClimbs(c: Config, run: seq<Net>, d: Addr, at: seq<Addr>, when: seq<nat>, i: nat, j: nat)
    requires Safe(c) && IsRun(c, run) && Journey(run, d, at, when) && i < j < |when|
    ensures Climbs(run, d, at, when, i, j)
  {
    forall k: nat | k + 1 < |when| ensures OneHopClimbs(run, d, at, when, k) {
      JourneyHop(c, run, d, at, when, k);
    }
    HopsClimb(run, d, at, when, i, j);
  }
}
