// Every AODV reply answers a request of the node it is for, and whoever asked for a route and still has none takes
// every answer.
module AodvAnswers {
  import opened AodvTable
  import opened AodvAgent
  import opened AodvNetwork
  import opened AodvLaws

  /** The request that node a sent first itself, asking for d. */
  predicate IsOwn(m: Msg, a: Addr, d: Addr) {
    m.Rreq? && m.from == a && m.src == a && m.hop == 1 && m.dst == d
  }

  /** A request goes back to one that its source sent, and asks for no older number. */
  ghost predicate Rooted(flight: set<Msg>, m: Msg)
    requires m.Rreq?
  {
    exists m0 :: m0 in flight && IsOwn(m0, m.src, m.dst) && m0.bid == m.bid && m0.dstSeq <= m.dstSeq
  }

  /** A reply answers a request of the node it is for, with no older number than that asked for. */
  ghost predicate Wanted(flight: set<Msg>, m: Msg)
    requires m.Rrep?
  {
    exists m0 :: m0 in flight && IsOwn(m0, m.ipdst, m.dst) && m0.dstSeq <= m.dstSeq
  }

  ghost predicate Meant(flight: set<Msg>) {
    forall m | m in flight :: (m.Rreq? ==> Rooted(flight, m)) && (m.Rrep? ==> Wanted(flight, m))
  }

  lemma PassedRooted(flight: set<Msg>, rq: Msg, m: Msg)
    requires rq.Rreq? && m.Rreq? && Rooted(flight, rq)
    requires m.src == rq.src && m.bid == rq.bid && m.dst == rq.dst && m.dstSeq >= rq.dstSeq
    ensures Rooted(flight, m)
  {
    var m0 :| m0 in flight && IsOwn(m0, rq.src, rq.dst) && m0.bid == rq.bid && m0.dstSeq <= rq.dstSeq;
  }

  lemma AnswerWanted(flight: set<Msg>, rq: Msg, m: Msg)
    requires rq.Rreq? && m.Rrep? && Rooted(flight, rq) && m.ipdst == rq.src && m.dst == rq.dst && m.dstSeq >= rq.dstSeq
    ensures Wanted(flight, m)
  {
    var m0 :| m0 in flight && IsOwn(m0, rq.src, rq.dst) && m0.bid == rq.bid && m0.dstSeq <= rq.dstSeq;
  }

  lemma RelayedWanted(flight: set<Msg>, rp: Msg, m: Msg)
    requires rp.Rrep? && m.Rrep? && Wanted(flight, rp)
    requires m.ipdst == rp.ipdst && m.dst == rp.dst && m.dstSeq == rp.dstSeq
    ensures Wanted(flight, m)
  {
    var m0 :| m0 in flight && IsOwn(m0, rp.ipdst, rp.dst) && m0.dstSeq <= rp.dstSeq;
  }

  lemma OwnRooted(flight: set<Msg>, m: Msg)
    requires m in flight && m.Rreq? && IsOwn(m, m.src, m.dst)
    ensures Rooted(flight, m)
  {
  }

  /** The messages that a node sends on an event, given what the one it heard goes back to. */
  lemma SentMeant(flight: set<Msg>, s: Node, e: Event, s': Node, out: seq<Msg>, m: Msg)
    requires Does(s, e, s', out) && m in out && m in flight
    requires e.Receive? ==> !e.msg.Hop? && (e.msg.Rreq? ==> Rooted(flight, e.msg))
                            && (e.msg.Rrep? ==> Wanted(flight, e.msg))
    ensures (m.Rreq? ==> Rooted(flight, m)) && (m.Rrep? ==> Wanted(flight, m))
  {
    hide Rooted, Wanted;
    if e.Receive? && e.msg.Rreq? {
      assert m == out[0];
      if m.Rreq? {
        PassedRooted(flight, e.msg, m);
      } else {
        AnswerWanted(flight, e.msg, m);
      }
    } else if e.Receive? && e.msg.Rrep? {
      RelayedWanted(flight, e.msg, m);
    } else {
      OwnMeant(s, e, s', out, m);
      if m.Rreq? {
        OwnRooted(flight, m);
      }
    }
  }

  /** All other requests are a node's own, and nothing else makes a reply. */
  lemma OwnMeant(s: Node, e: Event, s': Node, out: seq<Msg>, m: Msg)
    requires Does(s, e, s', out) && m in out && (e.Receive? ==> e.msg.Rerr? || e.msg.Hello?)
    ensures !m.Rrep? && (m.Rreq? ==> IsOwn(m, m.src, m.dst))
  {
  }

  lemma MeantStays(flight: set<Msg>, more: set<Msg>)
    requires Meant(flight)
    ensures forall m | m in flight ::
              (m.Rreq? ==> Rooted(flight + more, m)) && (m.Rrep? ==> Wanted(flight + more, m))
  {
    forall m | m in flight
      ensures (m.Rreq? ==> Rooted(flight + more, m)) && (m.Rrep? ==> Wanted(flight + more, m))
    {
      if m.Rreq? {
        var m0 :| m0 in flight && IsOwn(m0, m.src, m.dst) && m0.bid == m.bid && m0.dstSeq <= m.dstSeq;
        assert m0 in flight + more;
      } else if m.Rrep? {
        var m0 :| m0 in flight && IsOwn(m0, m.ipdst, m.dst) && m0.dstSeq <= m.dstSeq;
        assert m0 in flight + more;
      }
    }
  }

  lemma {:induction false} RunMeant(c: Config, run: seq<Net>, i: nat)
    requires IsRun(c, run) && i < |run|
    ensures Meant(run[i].flight)
  {
    hide Handle, Rooted, Wanted, Sane;
    if i > 0 {
      RunMeant(c, run, i - 1);
      RunSane(c, run, i - 1);
      assert Step(c, run[i - 1], run[i]);
      var e :| Enabled(c, run[i - 1], e) && run[i] == Apply(c, run[i - 1], e);
      StepMeant(c, run[i - 1], e);
    }
  }

  lemma StepMeant(c: Config, net: Net, e: Event)
    requires AllSane(net) && Meant(net.flight) && Enabled(c, net, e)
    ensures Meant(Apply(c, net, e).flight)
  {
    hide Handle, Rooted, Wanted, Does;
    var (s', out) := Handle(net.nodes[e.at], e);
    var more := set m | m in out;
    HandleLaw(net.nodes[e.at], e);
    MeantStays(net.flight, more);
    forall m | m in out
      ensures (m.Rreq? ==> Rooted(net.flight + more, m)) && (m.Rrep? ==> Wanted(net.flight + more, m))
    {
      assert m in more;
      SentMeant(net.flight + more, net.nodes[e.at], e, s', out, m);
    }
  }

  /** The entry of the asker is still the one it asked with: no route, and the number it asked for. */
  predicate StillAsks(net: Net, m0: Msg)
    requires m0.Rreq?
  {
    && m0.src in net.nodes && m0.dst in net.nodes[m0.src].rtable
    && net.nodes[m0.src].rtable[m0.dst].hops == INFINITY2 && net.nodes[m0.src].rtable[m0.dst].seqno == m0.dstSeq
  }

  /** In every run of any network, each reply answers a request of the node it is for, and if that still has nothing
      better than when it asked it takes the reply as its route, unless the hop count is worthless. */
  lemma AnswersAreWanted(c: Config, net: Net, m: Msg, now: Event) returns (m0: Msg)
    requires Reachable(c, net) && m in net.flight && m.Rrep?
    requires now == Receive(m.ipdst, m) && Enabled(c, net, now)
    ensures m0 in net.flight && IsOwn(m0, m.ipdst, m.dst) && m0.dstSeq <= m.dstSeq
    ensures StillAsks(net, m0) && (m.hop < INFINITY2 || m0.dstSeq < m.dstSeq) ==>
              var t := Apply(c, net, now).nodes[m.ipdst].rtable;
              && m.dst in t && t[m.dst].flag == Up && t[m.dst].nexthop == m.from
              && KeyOf(t, m.dst) == Offer(m)
  {
    hide Handle, Does, Reachable;
    EventLaw(c, net, now);
    m0 := Origin(c, net, m);
    if StillAsks(net, m0) && (m.hop < INFINITY2 || m0.dstSeq < m.dstSeq) {
      TakesAnswer(net.nodes[m.ipdst], m0, m, Apply(c, net, now).nodes[m.ipdst], Handle(net.nodes[m.ipdst], now).1);
    }
  }

  lemma Origin(c: Config, net: Net, m: Msg) returns (m0: Msg)
    requires Reachable(c, net) && m in net.flight && m.Rrep?
    ensures m0 in net.flight && IsOwn(m0, m.ipdst, m.dst) && m0.dstSeq <= m.dstSeq
  {
    var run :| IsRun(c, run) && run[|run| - 1] == net;
    RunMeant(c, run, |run| - 1);
    assert Wanted(net.flight, m);
    m0 :| m0 in net.flight && IsOwn(m0, m.ipdst, m.dst) && m0.dstSeq <= m.dstSeq;
  }

  lemma TakesAnswer(s: Node, m0: Msg, m: Msg, s': Node, out: seq<Msg>)
    requires m.Rrep? && m0.Rreq? && m0.dstSeq <= m.dstSeq && Does(s, Receive(m.ipdst, m), s', out)
    requires KeyOf(s.rtable, m.dst) == Key(m0.dstSeq, INFINITY2) && (m.hop < INFINITY2 || m0.dstSeq < m.dstSeq)
    ensures m.dst in s'.rtable && s'.rtable[m.dst].flag == Up && s'.rtable[m.dst].nexthop == m.from
    ensures KeyOf(s'.rtable, m.dst) == Offer(m)
  {
  }
}
