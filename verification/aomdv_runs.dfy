// What every run of AOMDV keeps, on networks of any size: entries only grow, what a node offers about a destination
// under one sequence number never changes, and no assertion of a handler fails.
module AomdvRuns {
  import opened Common
  import opened AomdvPaths
  import opened AomdvRtable
  import opened AomdvAgent
  import opened AomdvNetwork
  import opened AomdvLegal

  // ----- entries only grow -----

  ghost predicate NetGrows(net: Net, net': Net) {
    net.nodes.Keys == net'.nodes.Keys
    && forall n, d | n in net.nodes :: EntryGrows(EntryAt(net, n, d), EntryAt(net', n, d))
  }

  lemma NetGrowsSelf(net: Net)
    ensures NetGrows(net, net)
  {
  }

  lemma NetGrowsOn(net: Net, net': Net, net'': Net)
    requires NetGrows(net, net') && NetGrows(net', net'')
    ensures NetGrows(net, net'')
  {
    forall n, d | n in net.nodes ensures EntryGrows(EntryAt(net, n, d), EntryAt(net'', n, d)) {
      assert EntryGrows(EntryAt(net, n, d), EntryAt(net', n, d));
      assert EntryGrows(EntryAt(net', n, d), EntryAt(net'', n, d));
    }
  }

  // ----- one step -----

  lemma StepGrows(net: Net, at: Addr, heard: set<Msg>, r: (Node, seq<Msg>))
    requires at in net.nodes && Legal(net.nodes[at], heard, r)
    ensures NetGrows(net, After(net, at, r))
  {
    var net' := After(net, at, r);
    forall n, d | n in net.nodes ensures EntryGrows(EntryAt(net, n, d), EntryAt(net', n, d)) {
      if n == at {
        assert EntryLegal(net.nodes[at].limits, EntryAt(net, n, d), EntryAt(net', n, d), d, heard);
      }
    }
  }

  /** All paths after the step come from offers that were in flight before it. */
  lemma SourceKept(net: Net, at: Addr, heard: set<Msg>, r: (Node, seq<Msg>), n: Addr, d: Addr)
    requires at in net.nodes && heard <= net.flight && Legal(net.nodes[at], heard, r)
    requires PathsSourced(net) && n in net.nodes
    ensures EntrySourced(net.flight, d, EntryAt(After(net, at, r), n, d))
  {
    var e := EntryAt(net, n, d);
    assert EntrySourced(net.flight, d, e);
    if n == at {
      var e' := Lookup(r.0.rtable, d);
      assert EntryLegal(net.nodes[at].limits, e, e', d, heard);
      forall p | p in e'.paths ensures exists m :: m in net.flight && Source(m, d, e'.seqno, p) {
        assert PathOrigin(net.nodes[at].limits, e, e', d, p, heard);
        if q :| e.seqno == e'.seqno && q in e.paths && q.nexthop == p.nexthop && q.hopcount == p.hopcount {
          var m :| m in net.flight && Source(m, d, e.seqno, q);
          assert Source(m, d, e'.seqno, p);
        }
      }
    }
  }

  lemma SourcesKept(net: Net, at: Addr, heard: set<Msg>, r: (Node, seq<Msg>))
    requires at in net.nodes && heard <= net.flight && Legal(net.nodes[at], heard, r) && PathsSourced(net)
    ensures PathsSourced(After(net, at, r))
  {
    var net' := After(net, at, r);
    forall n, d | n in net'.nodes ensures EntrySourced(net'.flight, d, EntryAt(net', n, d)) {
      SourceKept(net, at, heard, r, n, d);
    }
  }

  /** The offer behind a path that a node holds after its step; it was in flight before. */
  lemma PathSource(net: Net, at: Addr, heard: set<Msg>, r: (Node, seq<Msg>), d: Addr, p: Path) returns (m: Msg)
    requires at in net.nodes && heard <= net.flight && Legal(net.nodes[at], heard, r)
    requires PathsSourced(net) && FlightOk(net) && p in Lookup(r.0.rtable, d).paths
    ensures m in net.flight && Advertises(m) && Source(m, d, Lookup(r.0.rtable, d).seqno, p) && d in net.nodes
  {
    SourceKept(net, at, heard, r, at, d);
    m :| m in net.flight && Source(m, d, Lookup(r.0.rtable, d).seqno, p);
  }

  lemma OldOfferKept(net: Net, net': Net, m: Msg)
    requires NetGrows(net, net') && Advertises(m) && OfferOk(net, m)
    ensures OfferOk(net', m)
  {
    assert EntryGrows(EntryAt(net, m.from, About(m)), EntryAt(net', m.from, About(m)));
  }

  lemma SentKept(net: Net, at: Addr, heard: set<Msg>, r: (Node, seq<Msg>), m: Msg)
    requires at in net.nodes && net.nodes[at].index == at && heard <= net.flight && Legal(net.nodes[at], heard, r)
    requires PathsSourced(net) && FlightOk(net) && m in r.1
    ensures MsgOk(m) && (Advertises(m) ==> OfferOk(After(net, at, r), m))
  {
    assert SentOk(r.0, m);
    if Advertises(m) && About(m) != at {
      var e' := Lookup(r.0.rtable, About(m));
      assert EntryLegal(net.nodes[at].limits, EntryAt(net, at, About(m)), e', About(m), heard);
      assert e'.paths[0] in e'.paths;
      var source := PathSource(net, at, heard, r, About(m), e'.paths[0]);
    }
  }

  lemma FlightKept(net: Net, at: Addr, heard: set<Msg>, r: (Node, seq<Msg>))
    requires at in net.nodes && net.nodes[at].index == at && heard <= net.flight && Legal(net.nodes[at], heard, r)
    requires PathsSourced(net) && FlightOk(net) && NetGrows(net, After(net, at, r))
    ensures FlightOk(After(net, at, r))
  {
    var net' := After(net, at, r);
    forall m | m in net'.flight ensures MsgOk(m) && (Advertises(m) ==> OfferOk(net', m)) {
      if m in r.1 {
        SentKept(net, at, heard, r, m);
      } else if Advertises(m) {
        OldOfferKept(net, net', m);
      }
    }
  }

  /** A new offer agrees with every offer its node made before under the same sequence number. */
  lemma ConstantKept(net: Net, at: Addr, heard: set<Msg>, r: (Node, seq<Msg>))
    requires at in net.nodes && net.nodes[at].index == at && Legal(net.nodes[at], heard, r)
    requires Constant(net.flight) && FlightOk(After(net, at, r))
    ensures Constant(After(net, at, r).flight)
  {
    var net' := After(net, at, r);
    forall m, m' | m in net'.flight && m' in net'.flight && Advertises(m) && Advertises(m') && m.from == m'.from
                   && About(m) == About(m') && OfferSeq(m) == OfferSeq(m')
      ensures OfferHops(m) == OfferHops(m')
    {
      assert OfferOk(net', m) && OfferOk(net', m');
      assert MsgOk(m) && MsgOk(m');
      assert m in r.1 ==> SentOk(r.0, m);
      assert m' in r.1 ==> SentOk(r.0, m');
    }
  }

  lemma LegalKeepsInv(c: Config, net: Net, at: Addr, heard: set<Msg>, r: (Node, seq<Msg>))
    requires Inv(c, net) && at in net.nodes && heard <= net.flight && Legal(net.nodes[at], heard, r)
    ensures Inv(c, After(net, at, r)) && NetGrows(net, After(net, at, r))
  {
    StepGrows(net, at, heard, r);
    SourcesKept(net, at, heard, r);
    FlightKept(net, at, heard, r);
    ConstantKept(net, at, heard, r);
    LegalNodeOk(net.nodes[at], heard, r);
  }

  lemma LegalNodeOk(s: Node, heard: set<Msg>, r: (Node, seq<Msg>))
    requires Legal(s, heard, r)
    ensures NodeOk(r.0)
  {
    forall d | d in r.0.rtable ensures EntryOk(s.limits, r.0.rtable[d]) {
      assert EntryLegal(s.limits, Lookup(s.rtable, d), Lookup(r.0.rtable, d), d, heard);
    }
  }

  /** Every handler makes legal changes only, to whatever well-formed message. */
  lemma HandlerLegal(s: Node, e: Event) returns (heard: set<Msg>)
    requires NodeOk(s) && (e.Request? ==> e.dst in s.rtable) && (e.Receive? ==> MsgOk(e.msg))
    ensures heard == (if e.Receive? then {e.msg} else {}) && Legal(s, heard, Handle(s, e))
  {
    heard := {};
    match e {
      case Receive(_, m, now) =>
        heard := {m};
        match m {
          case Rreq(_, _, _, _, _, _, _, _, _) => RequestLegal(s, m, now);
          case Rrep(_, _, _, _, _, _, _, _, _, _) => ReplyLegal(s, m, now);
          case Rerr(_, _) => ErrorLegal(s, m);
          case Hello(_, _) => HelloLegal(s, m, now);
        }
      case Data(_, dst, own, quiet, ttl, now) => DataLegal(s, dst, own, quiet, ttl, now);
      case Request(_, dst, ttl) => RequestSentLegal(s, dst, ttl);
      case LoseLink(_, nbr) => LinkLegal(s, nbr);
      case Expire(_, now) => ExpireLegal(s, now);
      case Forget(_, ids) =>
        SameTableLegal(s, {});
        Conclude(s, AomdvAgent.PurgeIds(s, ids), [], {});
      case Greet(_) =>
        SameTableLegal(s, {});
        Conclude(s, s, SendHello(s), {});
    }
  }

  /** What happened in a step, to which node, in answer to which message. */
  lemma StepLegal(c: Config, net: Net, net': Net) returns (at: Addr, heard: set<Msg>, r: (Node, seq<Msg>))
    requires Inv(c, net) && Step(net, net')
    ensures at in net.nodes && heard <= net.flight && Legal(net.nodes[at], heard, r) && net' == After(net, at, r)
  {
    var e :| Enabled(net, e) && net' == Apply(net, e);
    assert e.Receive? ==> MsgOk(e.msg);
    at, r := e.at, Handle(net.nodes[e.at], e);
    heard := HandlerLegal(net.nodes[e.at], e);
  }

  lemma StepKeepsInv(c: Config, net: Net, net': Net)
    requires Inv(c, net) && Step(net, net')
    ensures Inv(c, net') && NetGrows(net, net')
  {
    var at, heard, r := StepLegal(c, net, net');
    LegalKeepsInv(c, net, at, heard, r);
  }

  // ----- whole runs -----

  lemma InitialInv(c: Config)
    ensures Inv(c, Initial(c))
  {
    var net := Initial(c);
    assert forall n | n in net.nodes :: net.nodes[n] == InitialNode(n, c.limits);
    assert forall n, d | n in net.nodes :: EntryAt(net, n, d) == FreshEntry;
  }

  lemma {:induction false} RunKeepsInv(c: Config, run: seq<Net>, i: nat)
    requires IsRun(c, run) && i < |run|
    ensures Inv(c, run[i])
  {
    if i == 0 {
      InitialInv(c);
    } else {
      RunKeepsInv(c, run, i - 1);
      StepKeepsInv(c, run[i - 1], run[i]);
    }
  }

  lemma RunStepGrows(c: Config, run: seq<Net>, i: nat)
    requires IsRun(c, run) && 0 < i < |run|
    ensures NetGrows(run[i - 1], run[i])
  {
    RunKeepsInv(c, run, i - 1);
    StepKeepsInv(c, run[i - 1], run[i]);
  }

  /** Over any stretch of any run entries only get newer, and within one sequence number an
      advertised hop count, once set, stays. */
  lemma RunGrows(c: Config, run: seq<Net>, i: nat, j: nat)
    requires IsRun(c, run) && i <= j < |run|
    ensures NetGrows(run[i], run[j])
  {
    forall k | 0 < k < |run| ensures NetGrows(run[k - 1], run[k]) {
      RunStepGrows(c, run, k);
    }
    ChainGrows(run, i, j);
  }

  lemma {:induction false} ChainGrows(run: seq<Net>, i: nat, j: nat)
    requires i <= j < |run| && forall k | 0 < k < |run| :: NetGrows(run[k - 1], run[k])
    ensures NetGrows(run[i], run[j])
    decreases j
  {
    if i == j {
      NetGrowsSelf(run[i]);
    } else {
      ChainGrows(run, i, j - 1);
      NetGrowsOn(run[i], run[j - 1], run[j]);
    }
  }

  lemma ReachableInv(c: Config, net: Net)
    requires Reachable(c, net)
    ensures Inv(c, net)
  {
    var run :| IsRun(c, run) && run[|run| - 1] == net;
    RunKeepsInv(c, run, |run| - 1);
  }

  // ----- what holds in every reachable state -----

  /** The next hop of a path is newer, or advertises what the path is one hop longer than. */
  lemma BehindPath(net: Net, n: Addr, d: Addr, p: Path)
    requires PathsSourced(net) && FlightOk(net) && n in net.nodes && p in EntryAt(net, n, d).paths && p.nexthop != d
    ensures p.nexthop in net.nodes && p.hopcount >= 1
    ensures Repeats(EntryAt(net, p.nexthop, d), EntryAt(net, n, d).seqno, p.hopcount - 1)
  {
    assert EntrySourced(net.flight, d, EntryAt(net, n, d));
    var m :| m in net.flight && Source(m, d, EntryAt(net, n, d).seqno, p);
    assert OfferOk(net, m);
  }

  /** Advertisement constancy: everything a node ever offers about a destination under one sequence number has the
      same hop count. */
  lemma AdvertisementConstancy(c: Config, net: Net, m: Msg, m': Msg)
    requires Reachable(c, net) && m in net.flight && m' in net.flight && Advertises(m) && Advertises(m')
    requires m.from == m'.from && About(m) == About(m') && OfferSeq(m) == OfferSeq(m')
    ensures OfferHops(m) == OfferHops(m')
  {
    ReachableInv(c, net);
  }

  /** A path heard again is one hop longer than the message says, and the entry is up. */
  lemma ReheardPathsAgree(c: Config, net: Net, n: Addr, m: Msg, p: Path)
    requires Reachable(c, net) && n in net.nodes && m in net.flight && Advertises(m)
    requires EntryAt(net, n, About(m)).seqno == OfferSeq(m)
    ensures EntryAt(net, n, About(m)).flag == Up
    ensures p in EntryAt(net, n, About(m)).paths && p.nexthop == m.from ==> p.hopcount == OfferHops(m) + 1
  {
    ReachableInv(c, net);
    var e := EntryAt(net, n, About(m));
    assert MsgOk(m) && EntryOk(c.limits, e);
    if p in e.paths && p.nexthop == m.from {
      assert EntrySourced(net.flight, About(m), e);
      var m' :| m' in net.flight && Source(m', About(m), e.seqno, p);
    }
  }

  /** The path-list invariant: next hops and last hops pairwise distinct, the configured number of paths at most,
      none of more than 256 hops or longer than what is advertised; up exactly when there is a path, and then with
      an even sequence number. */
  lemma PathLists(c: Config, net: Net, n: Addr, d: Addr)
    requires Reachable(c, net) && n in net.nodes && c.limits.maxPaths >= 1
    ensures var e := EntryAt(net, n, d);
            && Disjoint(e.paths) && |e.paths| <= c.limits.maxPaths
            && (e.flag == Up <==> e.paths != [])
            && (if e.flag == Up then Even(e.seqno) else ZeroOrOdd(e.seqno))
            && forall p | p in e.paths :: 1 <= p.hopcount <= 256 && p.hopcount <= e.adv
  {
    ReachableInv(c, net);
    assert EntryOk(c.limits, EntryAt(net, n, d));
  }

  // ----- the handlers' own assertions -----

  /** An offer under the number the entry has already finds it up, and a path it repeats one hop longer. */
  predicate HeardAgain(e: Entry, seqno: nat, hops: nat, known: Query) {
    e.seqno == seqno && e.adv > hops ==>
      e.flag == Up && (Has(e.paths, known) ==> e.paths[First(e.paths, known)].hopcount == hops + 1)
  }

  /** The route has a first path to read, and an even number. */
  predicate Usable(t: Table, d: Addr) {
    d in t && t[d].paths != [] && t[d].seqno % 2 == 0
  }

  predicate RequestAsserts(s: Node, rq: Msg, now: real)
    requires rq.Rreq?
  {
    var h := Heard(s, rq, now);
    && HeardAgain(Lookup(s.rtable, rq.src), rq.srcSeq, rq.hop, Same(rq.from, FirstHop(s, rq)))
    && (!ReverseRoute(s, rq, now).dropped && rq.dst != s.index ==>
          && (CanAnswer(h.rtable, rq) ==> Usable(h.rtable, rq.dst))
          && h.rtable[rq.src].flag == Up && Usable(h.rtable, rq.src))
  }

  predicate ReplyAsserts(s: Node, rp: Msg, now: real)
    requires rp.Rrep?
  {
    && HeardAgain(Lookup(s.rtable, rp.dst), rp.dstSeq, rp.hop, Same(rp.from, rp.firstHop))
    && (ForwardRoute(s, rp, now).Taken? ==>
          var t := s.rtable[rp.dst := ForwardRoute(s, rp, now).entry];
          && t[rp.dst].flag == Up && Usable(t, rp.dst)
          && (rp.ipdst in t && t[rp.ipdst].flag == Up ==> Usable(t, rp.ipdst)))
  }

  /** The assertions written into the handlers of ns-2.35/aomdv/aomdv.cc, and that the paths they read without looking
      are there, for a node about to handle e. */
  predicate AssertsPass(s: Node, e: Event) {
    match e
    case Receive(_, m, now) => (
      match m
      case Rreq(_, _, _, _, _, _, _, _, _) => m.src == s.index || RequestAsserts(s, m, now)
      case Rrep(_, _, _, _, _, _, _, _, _, _) => m.dst == s.index || ReplyAsserts(s, m, now)
      case Rerr(_, _) => forall d | d in s.rtable && ErrorHits(s.rtable, d, m) :: s.rtable[d].seqno % 2 == 0
      case Hello(_, _) => m.from == s.index || ReplyAsserts(s.(nbrs := s.nbrs + {m.from}), AsReply(s, m), now))
    case Data(_, dst, _, _, _, _) => Lookup(s.rtable, dst).flag == Up ==> Usable(s.rtable, dst)
    case Request(_, _, _) => (s.seqno + 2) % 2 == 0
    case LoseLink(_, nbr) =>
      (s.seqno + 2) % 2 == 0 && forall d | d in s.rtable && UsesLink(s.rtable[d], nbr) :: s.rtable[d].seqno % 2 == 0
    case _ => true
  }

  lemma UsableUp(l: Limits, t: Table, d: Addr)
    requires d in t && EntryOk(l, t[d]) && t[d].flag == Up
    ensures Usable(t, d)
  {
  }

  lemma TableOk(s: Node, t: Table, heard: set<Msg>, d: Addr)
    requires TableLegal(s, t, heard)
    ensures EntryOk(s.limits, Lookup(t, d))
  {
    assert EntryLegal(s.limits, Lookup(s.rtable, d), Lookup(t, d), d, heard);
  }

  lemma HeardAgainPasses(c: Config, net: Net, n: Addr, m: Msg, known: Query)
    requires Reachable(c, net) && n in net.nodes && m in net.flight && Advertises(m)
    requires known.Same? && known.nexthop == m.from
    ensures HeardAgain(EntryAt(net, n, About(m)), OfferSeq(m), OfferHops(m), known)
  {
    var e := EntryAt(net, n, About(m));
    if e.seqno == OfferSeq(m) {
      var i := First(e.paths, known);
      ReheardPathsAgree(c, net, n, m, if i < |e.paths| then e.paths[i] else Path(0, 0, 0.0, 0));
    }
  }

  lemma RequestPasses(s: Node, rq: Msg, now: real)
    requires NodeOk(s) && rq.Rreq? && MsgOk(rq) && rq.src != s.index
    requires HeardAgain(Lookup(s.rtable, rq.src), rq.srcSeq, rq.hop, Same(rq.from, FirstHop(s, rq)))
    ensures RequestAsserts(s, rq, now)
  {
    ReverseLegal(s, rq, now);
    SameTableLegal(s, {rq});
    var h := Heard(s, rq, now);
    PutLegal(s, s.rtable, rq.src, ReverseRoute(s, rq, now).entry, {rq});
    TableOk(s, h.rtable, {rq}, rq.src);
    TableOk(s, h.rtable, {rq}, rq.dst);
    if !ReverseRoute(s, rq, now).dropped {
      UsableUp(s.limits, h.rtable, rq.src);
    }
    if CanAnswer(h.rtable, rq) {
      UsableUp(s.limits, h.rtable, rq.dst);
    }
  }

  lemma ReplyPasses(s: Node, rp: Msg, now: real)
    requires NodeOk(s) && rp.Rrep? && MsgOk(rp)
    requires HeardAgain(Lookup(s.rtable, rp.dst), rp.dstSeq, rp.hop, Same(rp.from, rp.firstHop))
    ensures ReplyAsserts(s, rp, now)
  {
    if ForwardRoute(s, rp, now).Taken? {
      var t := s.rtable[rp.dst := ForwardRoute(s, rp, now).entry];
      ForwardLegal(s, rp, now);
      SameTableLegal(s, {rp});
      PutLegal(s, s.rtable, rp.dst, t[rp.dst], {rp});
      TableOk(s, t, {rp}, rp.dst);
      UsableUp(s.limits, t, rp.dst);
      if rp.ipdst in t && t[rp.ipdst].flag == Up {
        TableOk(s, t, {rp}, rp.ipdst);
        UsableUp(s.limits, t, rp.ipdst);
      }
    }
  }

  lemma ReceivePasses(c: Config, net: Net, e: Event)
    requires Reachable(c, net) && Enabled(net, e) && e.Receive?
    ensures AssertsPass(net.nodes[e.at], e)
  {
    ReachableInv(c, net);
    var s, m := net.nodes[e.at], e.msg;
    assert MsgOk(m);
    match m {
      case Rreq(_, _, _, _, _, _, _, _, _) =>
        if m.src != s.index {
          HeardAgainPasses(c, net, e.at, m, Same(m.from, FirstHop(s, m)));
          RequestPasses(s, m, e.now);
        }
      case Rrep(_, _, _, _, _, _, _, _, _, _) =>
        HeardAgainPasses(c, net, e.at, m, Same(m.from, m.firstHop));
        ReplyPasses(s, m, e.now);
      case Hello(_, _) =>
        HeardAgainPasses(c, net, e.at, m, Same(m.from, s.index));
        ReplyPasses(s.(nbrs := s.nbrs + {m.from}), AsReply(s, m), e.now);
      case Rerr(_, _) =>
    }
  }

  /** No assertion of a handler fails in any run. */
  lemma AssertsNeverFail(c: Config, net: Net, e: Event)
    requires Reachable(c, net) && Enabled(net, e)
    ensures AssertsPass(net.nodes[e.at], e)
  {
    if e.Receive? {
      ReceivePasses(c, net, e);
    } else {
      ReachableInv(c, net);
    }
  }
}
