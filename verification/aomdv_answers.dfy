// Every AOMDV reply answers a request of the node it is for, and whoever asked for a route and still has none takes
// every answer.
module AomdvAnswers {
  import opened AomdvPaths
  import opened AomdvRtable
  import opened AomdvAgent
  import opened AomdvNetwork
  import opened AomdvLegal
  import opened AomdvRuns
  import opened AomdvLaws

  /** The request that node a sent first itself, asking for d. */
  predicate IsOwn(m: Msg, a: Addr, d: Addr) {
    m.Rreq? && m.from == a && m.src == a && m.hop == 0 && m.dst == d
  }

  /** A request goes back to one that its source sent, and asks for no older number. */
  ghost predicate Rooted(flight: set<Msg>, m: Msg)
    requires m.Rreq?
  {
    exists m0 :: m0 in flight && IsOwn(m0, m.src, m.dst) && m0.bid == m.bid && m0.dstSeq <= m.dstSeq
  }

  /** A reply answers a request of the node it is for, with no older number than that asked for. */
  ghost predicate Wanted(flight: set<Msg>, m: Msg)
    requires m.Rrep?
  {
    exists m0 :: m0 in flight && IsOwn(m0, m.ipdst, m.dst) && m0.bid == m.bid && m0.dstSeq <= m.dstSeq
  }

  ghost predicate Meant(flight: set<Msg>) {
    forall m | m in flight :: (m.Rreq? ==> Rooted(flight, m)) && (m.Rrep? ==> Wanted(flight, m))
  }

  lemma PassedRooted(flight: set<Msg>, rq: Msg, m: Msg)
    requires rq.Rreq? && m.Rreq? && Rooted(flight, rq)
    requires m.src == rq.src && m.bid == rq.bid && m.dst == rq.dst && m.dstSeq >= rq.dstSeq
    ensures Rooted(flight, m)
  {
    var m0 :| m0 in flight && IsOwn(m0, rq.src, rq.dst) && m0.bid == rq.bid && m0.dstSeq <= rq.dstSeq;
  }

  lemma AnswerWanted(flight: set<Msg>, rq: Msg, m: Msg)
    requires rq.Rreq? && m.Rrep? && Rooted(flight, rq)
    requires m.ipdst == rq.src && m.bid == rq.bid && m.dst == rq.dst && m.dstSeq >= rq.dstSeq
    ensures Wanted(flight, m)
  {
    var m0 :| m0 in flight && IsOwn(m0, rq.src, rq.dst) && m0.bid == rq.bid && m0.dstSeq <= rq.dstSeq;
  }

  lemma RelayedWanted(flight: set<Msg>, rp: Msg, m: Msg)
    requires rp.Rrep? && m.Rrep? && Wanted(flight, rp)
    requires m.ipdst == rp.ipdst && m.bid == rp.bid && m.dst == rp.dst && m.dstSeq == rp.dstSeq
    ensures Wanted(flight, m)
  {
    var m0 :| m0 in flight && IsOwn(m0, rp.ipdst, rp.dst) && m0.bid == rp.bid && m0.dstSeq <= rp.dstSeq;
  }

  lemma OwnRooted(flight: set<Msg>, m: Msg)
    requires m in flight && m.Rreq? && IsOwn(m, m.src, m.dst)
    ensures Rooted(flight, m)
  {
  }

  /** The messages that a node sends on an event, given what the one it heard goes back to. */
  lemma SentMeant(flight: set<Msg>, s: Node, e: Event, s': Node, out: seq<Msg>, m: Msg)
    requires Does(s, e, s', out) && m in out && m in flight
    requires e.Receive? ==> (e.msg.Rreq? ==> Rooted(flight, e.msg)) && (e.msg.Rrep? ==> Wanted(flight, e.msg))
    ensures (m.Rreq? ==> Rooted(flight, m)) && (m.Rrep? ==> Wanted(flight, m))
  {
    hide Rooted, Wanted, Hears, Remembers, Learns;
    if e.Receive? && e.msg.Rreq? {
      if m.Rreq? {
        PassedRooted(flight, e.msg, m);
      } else {
        AnswerWanted(flight, e.msg, m);
      }
    } else if e.Receive? && e.msg.Rrep? {
      RelayedWanted(flight, e.msg, m);
    } else {
      OwnMeant(s, e, s', out, m);
      if m.Rreq? {
        OwnRooted(flight, m);
      }
    }
  }

  /** All other requests are a node's own, and nothing else makes a reply. */
  lemma OwnMeant(s: Node, e: Event, s': Node, out: seq<Msg>, m: Msg)
    requires Does(s, e, s', out) && m in out && (e.Receive? ==> e.msg.Rerr? || e.msg.Hello?)
    ensures !m.Rrep? && (m.Rreq? ==> IsOwn(m, m.src, m.dst))
  {
  }

  lemma MeantStays(flight: set<Msg>, more: set<Msg>)
    requires Meant(flight)
    ensures forall m | m in flight ::
              (m.Rreq? ==> Rooted(flight + more, m)) && (m.Rrep? ==> Wanted(flight + more, m))
  {
    forall m | m in flight
      ensures (m.Rreq? ==> Rooted(flight + more, m)) && (m.Rrep? ==> Wanted(flight + more, m))
    {
      if m.Rreq? {
        var m0 :| m0 in flight && IsOwn(m0, m.src, m.dst) && m0.bid == m.bid && m0.dstSeq <= m.dstSeq;
        assert m0 in flight + more;
      } else if m.Rrep? {
        var m0 :| m0 in flight && IsOwn(m0, m.ipdst, m.dst) && m0.bid == m.bid && m0.dstSeq <= m.dstSeq;
        assert m0 in flight + more;
      }
    }
  }

  lemma StepMeant(c: Config, net: Net, e: Event)
    requires Inv(c, net) && Meant(net.flight) && Enabled(net, e)
    ensures Meant(Apply(net, e).flight)
  {
    hide Handle, Rooted, Wanted, Does;
    var (s', out) := Handle(net.nodes[e.at], e);
    var more := set m | m in out;
    HandleLaw(net.nodes[e.at], e);
    MeantStays(net.flight, more);
    forall m | m in out
      ensures (m.Rreq? ==> Rooted(net.flight + more, m)) && (m.Rrep? ==> Wanted(net.flight + more, m))
    {
      assert m in more;
      SentMeant(net.flight + more, net.nodes[e.at], e, s', out, m);
    }
  }

  lemma {:induction false} RunMeant(c: Config, run: seq<Net>, i: nat)
    requires IsRun(c, run) && i < |run|
    ensures Meant(run[i].flight)
  {
    hide Handle, Rooted, Wanted;
    if i > 0 {
      RunMeant(c, run, i - 1);
      RunKeepsInv(c, run, i - 1);
      assert Step(run[i - 1], run[i]);
      var e :| Enabled(run[i - 1], e) && run[i] == Apply(run[i - 1], e);
      StepMeant(c, run[i - 1], e);
    }
  }

  /** The entry of the asker is still the one it asked with: down, under the number it asked for. */
  predicate StillAsks(net: Net, m0: Msg)
    requires m0.Rreq?
  {
    && m0.src in net.nodes && EntryAt(net, m0.src, m0.dst).flag == Down
    && EntryAt(net, m0.src, m0.dst).seqno == m0.dstSeq
  }

  lemma Origin(c: Config, net: Net, m: Msg) returns (m0: Msg)
    requires Reachable(c, net) && m in net.flight && m.Rrep?
    ensures m0 in net.flight && IsOwn(m0, m.ipdst, m.dst) && m0.bid == m.bid && m0.dstSeq <= m.dstSeq
  {
    var run :| IsRun(c, run) && run[|run| - 1] == net;
    RunMeant(c, run, |run| - 1);
    assert Wanted(net.flight, m);
    m0 :| m0 in net.flight && IsOwn(m0, m.ipdst, m.dst) && m0.bid == m.bid && m0.dstSeq <= m.dstSeq;
  }

  /** In every run of any network, each reply answers a request of the node it is for, and if that still has nothing
      better than when it asked it takes the reply as its route. */
  lemma AnswersAreWanted(c: Config, net: Net, m: Msg, now: real) returns (m0: Msg)
    requires Reachable(c, net) && m in net.flight && m.Rrep? && Enabled(net, Receive(m.ipdst, m, now))
    ensures m0 in net.flight && IsOwn(m0, m.ipdst, m.dst) && m0.bid == m.bid && m0.dstSeq <= m.dstSeq
    ensures StillAsks(net, m0) && m.dst != m.ipdst ==>
              HasPath(Apply(net, Receive(m.ipdst, m, now)), m.ipdst, m.dst, m.from)
  {
    m0 := Origin(c, net, m);
    ReachableInv(c, net);
    EventLaw(c, net, Receive(m.ipdst, m, now));
    if StillAsks(net, m0) && m.dst != m.ipdst {
      var s := net.nodes[m.ipdst];
      KnownOk(s, m.dst);
      TakesAnswer(s, m, now, Apply(net, Receive(m.ipdst, m, now)).nodes[m.ipdst]);
    }
  }

  lemma TakesAnswer(s: Node, m: Msg, now: real, s': Node)
    requires m.Rrep? && MsgOk(m) && m.ipdst == s.index && m.dst != s.index && Learns(s, m, now, s')
    requires EntryOk(s.limits, Lookup(s.rtable, m.dst)) && Lookup(s.rtable, m.dst).flag == Down
    requires Lookup(s.rtable, m.dst).seqno <= m.dstSeq
    ensures m.dst in s'.rtable && s'.rtable[m.dst].flag == Up
    ensures exists p | p in s'.rtable[m.dst].paths :: p.nexthop == m.from
  {
    assert RepliedBy(m, now) in s'.rtable[m.dst].paths;
  }
}
