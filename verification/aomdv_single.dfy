// With room for one path per entry, or when a second one could never be short enough, AOMDV is loop free however wide
// the network and however hop counts wrap: a node takes up a sequence number once, from a node that has it already.
module AomdvSingle {
  import opened Common
  import opened AomdvPaths
  import opened AomdvRtable
  import opened AomdvAgent
  import opened AomdvNetwork
  import opened AomdvLegal
  import opened AomdvRuns

  predicate OnePath(c: Config) {
    Room(c.limits) == 1
  }

  /** The next hop is the destination itself, or has a newer number, or took the same number up earlier. */
  predicate Before(net: Net, d: Addr, rank: map<Addr, nat>, n: Addr, to: Addr)
    requires n in net.nodes
  {
    to == d || (to in net.nodes && to in rank && n in rank &&
      (EntryAt(net, to, d).seqno > EntryAt(net, n, d).seqno
       || (EntryAt(net, to, d).seqno == EntryAt(net, n, d).seqno && rank[to] < rank[n])))
  }

  ghost predicate Ranked(net: Net, d: Addr, rank: map<Addr, nat>) {
    rank.Keys == net.nodes.Keys
    && forall n, p | n in net.nodes && p in EntryAt(net, n, d).paths :: Before(net, d, rank, n, p.nexthop)
  }

  ghost predicate HasOrder(net: Net, d: Addr) {
    exists rank :: Ranked(net, d, rank)
  }

  ghost predicate InvOne(c: Config, net: Net) {
    Inv(c, net) && forall d :: HasOrder(net, d)
  }

  lemma NumberGrows(net: Net, at: Addr, heard: set<Msg>, r: (Node, seq<Msg>), n: Addr, d: Addr)
    requires at in net.nodes && Legal(net.nodes[at], heard, r) && n in net.nodes
    ensures EntryAt(After(net, at, r), n, d).seqno >= EntryAt(net, n, d).seqno
  {
    if n == at {
      assert EntryLegal(net.nodes[at].limits, EntryAt(net, n, d), Lookup(r.0.rtable, d), d, heard);
    }
  }

  /** A path that a node holds after its step was there before, or was taken with a newer number from a node that had
      it. */
  lemma PathTaken(c: Config, net: Net, at: Addr, heard: set<Msg>, r: (Node, seq<Msg>), d: Addr, p: Path)
    requires OnePath(c) && InvOne(c, net) && at in net.nodes && heard <= net.flight && Legal(net.nodes[at], heard, r)
    requires p in Lookup(r.0.rtable, d).paths
    ensures var e, e' := EntryAt(net, at, d), Lookup(r.0.rtable, d);
            || (e'.seqno == e.seqno && exists q :: q in e.paths && q.nexthop == p.nexthop)
            || (e'.seqno > e.seqno
                && (p.nexthop == d || (p.nexthop in net.nodes && EntryAt(net, p.nexthop, d).seqno >= e'.seqno)))
  {
    var e, e' := EntryAt(net, at, d), Lookup(r.0.rtable, d);
    assert EntryLegal(c.limits, e, e', d, heard) && EntryOk(c.limits, e);
    assert PathOrigin(c.limits, e, e', d, p, heard);
    if m :| m in heard && Source(m, d, e'.seqno, p) && Takes(e, e'.seqno, OfferHops(m)) {
      assert OfferOk(net, m);
    }
  }

  /** The rank of the node that took up a newer number, behind the node it took it from. */
  function Behind(net: Net, d: Addr, rank: map<Addr, nat>, at: Addr, e': Entry): nat
    requires at in net.nodes
  {
    if e'.paths != [] && e'.paths[0].nexthop in rank then rank[e'.paths[0].nexthop] + 1 else 0
  }

  lemma OtherStays(c: Config, net: Net, at: Addr, heard: set<Msg>, r: (Node, seq<Msg>), d: Addr, rank: map<Addr, nat>,
                   k: nat, n: Addr, p: Path)
    requires InvOne(c, net) && at in net.nodes && Legal(net.nodes[at], heard, r) && Ranked(net, d, rank)
    requires n in net.nodes && n != at && p in EntryAt(net, n, d).paths
    requires Lookup(r.0.rtable, d).seqno == EntryAt(net, at, d).seqno ==> k == rank[at]
    ensures Before(After(net, at, r), d, rank[at := k], n, p.nexthop)
  {
    assert Before(net, d, rank, n, p.nexthop);
    if p.nexthop != d {
      BehindPath(net, n, d, p);
      NumberGrows(net, at, heard, r, at, d);
    }
  }

  /** Under the same number the node keeps the next hop and its rank. */
  lemma SameRank(net: Net, at: Addr, r: (Node, seq<Msg>), d: Addr, rank: map<Addr, nat>, q: Path, to: Addr)
    requires at in net.nodes && Ranked(net, d, rank) && q in EntryAt(net, at, d).paths && q.nexthop == to
    requires Lookup(r.0.rtable, d).seqno == EntryAt(net, at, d).seqno
    ensures Before(After(net, at, r), d, rank[at := rank[at]], at, to)
  {
    assert Before(net, d, rank, at, q.nexthop);
  }

  /** Under a newer number it comes behind its next hop. */
  lemma NewRank(net: Net, at: Addr, r: (Node, seq<Msg>), d: Addr, rank: map<Addr, nat>, to: Addr)
    requires at in net.nodes && rank.Keys == net.nodes.Keys
    requires Lookup(r.0.rtable, d).seqno > EntryAt(net, at, d).seqno
    requires to in net.nodes && EntryAt(net, to, d).seqno >= Lookup(r.0.rtable, d).seqno
    ensures Before(After(net, at, r), d, rank[at := rank[to] + 1], at, to)
  {
  }

  lemma OwnStays(c: Config, net: Net, at: Addr, heard: set<Msg>, r: (Node, seq<Msg>), d: Addr, rank: map<Addr, nat>,
                 k: nat, p: Path)
    requires OnePath(c) && InvOne(c, net) && at in net.nodes && heard <= net.flight && Legal(net.nodes[at], heard, r)
    requires Ranked(net, d, rank) && p in Lookup(r.0.rtable, d).paths && p == Lookup(r.0.rtable, d).paths[0]
    requires var e, e' := EntryAt(net, at, d), Lookup(r.0.rtable, d);
             k == if e'.seqno == e.seqno then rank[at] else Behind(net, d, rank, at, e')
    ensures Before(After(net, at, r), d, rank[at := k], at, p.nexthop)
  {
    PathTaken(c, net, at, heard, r, d, p);
    if Lookup(r.0.rtable, d).seqno == EntryAt(net, at, d).seqno {
      var q :| q in EntryAt(net, at, d).paths && q.nexthop == p.nexthop;
      SameRank(net, at, r, d, rank, q, p.nexthop);
    } else if p.nexthop != d {
      NewRank(net, at, r, d, rank, p.nexthop);
    }
  }

  /** There is one path only. */
  lemma FirstOnly(c: Config, s: Node, heard: set<Msg>, r: (Node, seq<Msg>), d: Addr, p: Path)
    requires OnePath(c) && s.limits == c.limits && Legal(s, heard, r) && p in Lookup(r.0.rtable, d).paths
    ensures p == Lookup(r.0.rtable, d).paths[0]
  {
    assert EntryLegal(c.limits, Lookup(s.rtable, d), Lookup(r.0.rtable, d), d, heard);
  }

  lemma RankedStays(c: Config, net: Net, at: Addr, heard: set<Msg>, r: (Node, seq<Msg>), d: Addr)
    requires OnePath(c) && InvOne(c, net) && at in net.nodes && heard <= net.flight && Legal(net.nodes[at], heard, r)
    ensures HasOrder(After(net, at, r), d)
  {
    var net' := After(net, at, r);
    assert HasOrder(net, d);
    var rank :| Ranked(net, d, rank);
    var e, e' := EntryAt(net, at, d), Lookup(r.0.rtable, d);
    assert EntryLegal(c.limits, e, e', d, heard);
    var k := if e'.seqno == e.seqno then rank[at] else Behind(net, d, rank, at, e');
    var rank' := rank[at := k];
    forall n, p | n in net'.nodes && p in EntryAt(net', n, d).paths ensures Before(net', d, rank', n, p.nexthop) {
      if n != at {
        OtherStays(c, net, at, heard, r, d, rank, k, n, p);
      } else {
        FirstOnly(c, net.nodes[at], heard, r, d, p);
        OwnStays(c, net, at, heard, r, d, rank, k, p);
      }
    }
    assert Ranked(net', d, rank');
  }

  lemma StepKeepsInvOne(c: Config, net: Net, net': Net)
    requires OnePath(c) && InvOne(c, net) && Step(net, net')
    ensures InvOne(c, net')
  {
    var at, heard, r := StepLegal(c, net, net');
    LegalKeepsInv(c, net, at, heard, r);
    forall d ensures HasOrder(net', d) {
      RankedStays(c, net, at, heard, r, d);
    }
  }

  lemma InitialInvOne(c: Config)
    ensures InvOne(c, Initial(c))
  {
    var net := Initial(c);
    InitialInv(c);
    assert forall n, d | n in net.nodes :: EntryAt(net, n, d) == FreshEntry;
    forall d ensures HasOrder(net, d) {
      var rank: map<Addr, nat> := map n | n in net.nodes :: 0;
      assert Ranked(net, d, rank);
    }
  }

  lemma {:induction false} RunKeepsInvOne(c: Config, run: seq<Net>, i: nat)
    requires OnePath(c) && IsRun(c, run) && i < |run|
    ensures InvOne(c, run[i])
  {
    if i == 0 {
      InitialInvOne(c);
    } else {
      RunKeepsInvOne(c, run, i - 1);
      StepKeepsInvOne(c, run[i - 1], run[i]);
    }
  }

  lemma {:induction false} WalkDescends(net: Net, d: Addr, rank: map<Addr, nat>, w: seq<Addr>, i: nat, j: nat)
    requires Ranked(net, d, rank) && Walk(net, d, w) && i < j < |w| && w[j] != d
    ensures w[i] in net.nodes && Before(net, d, rank, w[i], w[j])
    decreases j
  {
    assert HasPath(net, w[j - 1], d, w[j]);
    var p :| p in EntryAt(net, w[j - 1], d).paths && p.nexthop == w[j];
    assert Before(net, d, rank, w[j - 1], w[j]);
    if i < j - 1 {
      WalkDescends(net, d, rank, w, i, j - 1);
    }
  }

  /** Loop freedom on any number of nodes. */
  lemma OnePathLoopFree(c: Config, net: Net)
    requires OnePath(c) && Reachable(c, net)
    ensures LoopFree(net)
  {
    var run :| IsRun(c, run) && run[|run| - 1] == net;
    RunKeepsInvOne(c, run, |run| - 1);
    forall d: Addr, w: seq<Addr>, i, j | Walk(net, d, w) && 0 <= i < j < |w| ensures w[i] != w[j] {
      if w[j] != d {
        assert HasOrder(net, d);
        var rank :| Ranked(net, d, rank);
        WalkDescends(net, d, rank, w, i, j);
      }
    }
  }
}
