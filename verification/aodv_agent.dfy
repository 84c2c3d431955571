// One AODV node: its messages, what each handler does to the node (functions on
// the node's value), and the agent class whose methods carry the handlers out in place.
module AodvAgent {
  import opened AodvTable

  const NETWORK_DIAMETER: nat := 30

  /** A data packet, and how often it was received on its way (num_forwards). */
  datatype Pkt = Pkt(src: Addr, dst: Addr, forwards: nat)

  datatype Msg =
    | Rreq(from: Addr, hop: nat, bid: nat, dst: Addr, dstSeq: nat, src: Addr, srcSeq: nat, ttl: int)
    | Rrep(from: Addr, nexthop: Addr, ipdst: Addr, hop: nat, dst: Addr, dstSeq: nat, ttl: int)
    | Rerr(from: Addr, unreachable: map<Addr, nat>)
    | Hello(from: Addr)
    | Hop(from: Addr, nexthop: Addr, pkt: Pkt)

  datatype Node = Node(
    index: Addr,
    seqno: nat,
    bid: nat,
    rtable: Table,
    bcache: set<(Addr, nat)>,
    nbrs: set<Addr>)

  function InitialNode(index: Addr): Node {
    Node(index, 2, 1, map[], {}, {})
  }

  function Max(a: nat, b: nat): nat {
    if a > b then a else b
  }

  /** Hop counts travel in an 8-bit header field. */
  function U8(n: nat): nat {
    n % 256
  }

  /** A message whose time to live has run out is dropped instead of sent. */
  function Forward(m: Msg): seq<Msg>
    requires m.Rreq? || m.Rrep?
  {
    if m.ttl == 0 then [] else [m]
  }

  // ----- route requests -----

  /** The new sequence number of a destination that answers a request: even, and above what it was asked for. */
  function AnswerSeqno(seqno: nat, asked: nat): nat {
    var s := Max(seqno, asked) + 1;
    if s % 2 == 1 then s + 1 else s
  }

  /** The reverse route after a request was heard. */
  function ReverseRoute(e: Entry, rq: Msg): Entry
    requires rq.Rreq?
  {
    if rq.srcSeq > e.seqno || (rq.srcSeq == e.seqno && rq.hop < e.hops)
    then RtUpdate(e, rq.srcSeq, rq.hop, rq.from)
    else e
  }

  function RecvRequest(s: Node, rq: Msg): (Node, seq<Msg>)
    requires rq.Rreq?
  {
    if rq.src == s.index || (rq.src, rq.bid) in s.bcache then (s, [])
    else
      var rt0 := ReverseRoute(Lookup(s.rtable, rq.src), rq);
      var heard := s.(bcache := s.bcache + {(rq.src, rq.bid)}, rtable := s.rtable[rq.src := rt0]);
      if rq.dst == s.index then
        var mine := AnswerSeqno(s.seqno, rq.dstSeq);
        (heard.(seqno := mine),
         [Rrep(s.index, rt0.nexthop, rq.src, 1, s.index, mine, NETWORK_DIAMETER)])
      else if CanAnswer(heard.rtable, rq) then
        var rt := heard.rtable[rq.dst];
        (heard.(rtable := WithPrecursors(heard.rtable, rq.src, rq.dst)),
         [Rrep(s.index, rt0.nexthop, rq.src, U8(rt.hops + 1), rq.dst, rt.seqno, NETWORK_DIAMETER)])
      else
        var asked := if rq.dst in heard.rtable then Max(heard.rtable[rq.dst].seqno, rq.dstSeq) else rq.dstSeq;
        (heard, Forward(Rreq(s.index, U8(rq.hop + 1), rq.bid, rq.dst, asked, rq.src, rq.srcSeq, rq.ttl - 1)))
  }

  predicate CanAnswer(t: Table, rq: Msg)
    requires rq.Rreq?
  {
    rq.dst in t && t[rq.dst].hops != INFINITY2 && t[rq.dst].seqno >= rq.dstSeq
  }

  /** Each of the two routes gets the next hop of the other as a precursor. */
  function WithPrecursors(t: Table, src: Addr, dst: Addr): Table
    requires src in t && dst in t
  {
    var t1 := t[dst := t[dst].(precursors := t[dst].precursors + {t[src].nexthop})];
    t1[src := t1[src].(precursors := t1[src].precursors + {t1[dst].nexthop})]
  }

  // ----- route replies -----

  predicate Accepts(e: Entry, rp: Msg)
    requires rp.Rrep?
  {
    e.seqno < rp.dstSeq || (e.seqno == rp.dstSeq && e.hops > rp.hop)
  }

  function RecvReply(s: Node, rp: Msg): (Node, seq<Msg>)
    requires rp.Rrep?
  {
    var rt := Lookup(s.rtable, rp.dst);
    if !Accepts(rt, rp) then (s.(rtable := s.rtable[rp.dst := rt]), [])
    else
      var learned := s.(rtable := s.rtable[rp.dst := RtUpdate(rt, rp.dstSeq, rp.hop, rp.from)]);
      if rp.ipdst == s.index || rp.ipdst !in learned.rtable || learned.rtable[rp.ipdst].hops == INFINITY2
      then (learned, [])
      else
        var back := learned.rtable[rp.ipdst].nexthop;
        var fwd := learned.rtable[rp.dst];
        (learned.(rtable := learned.rtable[rp.dst := fwd.(precursors := fwd.precursors + {back})]),
         Forward(Rrep(s.index, back, rp.ipdst, U8(rp.hop + 1), rp.dst, rp.dstSeq, rp.ttl - 1)))
  }

  // ----- route errors -----

  /** The entry for d is one the error takes down. */
  predicate ErrorHits(t: Table, d: Addr, er: Msg)
    requires er.Rerr?
  {
    d in t && d in er.unreachable && t[d].hops != INFINITY2 && t[d].nexthop == er.from
    && t[d].seqno <= er.unreachable[d]
  }

  function AfterError(t: Table, d: Addr, er: Msg): Entry
    requires er.Rerr? && d in t
  {
    if ErrorHits(t, d, er)
    then RtDown(t[d].(seqno := er.unreachable[d])).(precursors := {})
    else t[d]
  }

  /** What the node passes on: the routes taken down that somebody upstream uses. */
  function Propagated(t: Table, er: Msg): map<Addr, nat>
    requires er.Rerr?
  {
    map d | d in t && ErrorHits(t, d, er) && t[d].precursors != {} :: er.unreachable[d]
  }

  predicate Spreads(t: Table, d: Addr, er: Msg)
    requires er.Rerr?
  {
    d in t && ErrorHits(t, d, er) && t[d].precursors != {}
  }

  /** What looking at one destination after the other has led to so far. */
  predicate ErrorsTaken(t: Table, er: Msg, todo: set<Addr>, now: Table, down: map<Addr, nat>)
    requires er.Rerr?
  {
    && now.Keys == t.Keys
    && (forall d | d in t :: now[d] == if d in er.unreachable && d !in todo then AfterError(t, d, er) else t[d])
    && (forall d | d in er.unreachable && d !in todo && Spreads(t, d, er) :: d in down)
    && (forall d | d in down :: d in er.unreachable && d !in todo && Spreads(t, d, er) && down[d] == er.unreachable[d])
  }

  lemma ErrorTaken(t: Table, er: Msg, todo: set<Addr>, now: Table, down: map<Addr, nat>,
                   d: Addr, now': Table, down': map<Addr, nat>)
    requires er.Rerr? && d in todo && todo <= er.unreachable.Keys && ErrorsTaken(t, er, todo, now, down)
    requires now' == if d in now then now[d := AfterError(now, d, er)] else now
    requires down' == if Spreads(now, d, er) then down[d := er.unreachable[d]] else down
    ensures ErrorsTaken(t, er, todo - {d}, now', down')
  {
    assert d in t ==> now[d] == t[d];
  }

  function RecvError(s: Node, er: Msg): (Node, seq<Msg>)
    requires er.Rerr?
  {
    var t := s.rtable;
    var down := Propagated(t, er);
    (s.(rtable := map d | d in t :: AfterError(t, d, er)),
     if down == map[] then [] else [Rerr(s.index, down)])
  }

  // ----- broken links and expired routes -----

  predicate UsesLink(e: Entry, id: Addr) {
    e.hops != INFINITY2 && e.nexthop == id
  }

  function AfterLinkFailure(e: Entry, id: Addr): Entry {
    var e1 := if UsesLink(e, id) then RtDown(e.(seqno := e.seqno + 1)) else e;
    e1.(precursors := e1.precursors - {id})
  }

  /** What the node reports when its link to id breaks. */
  function Broken(t: Table, id: Addr): map<Addr, nat> {
    map d | d in t && UsesLink(t[d], id) :: t[d].seqno + 1
  }

  function LinkFailure(s: Node, id: Addr): (Node, seq<Msg>) {
    var t := s.rtable;
    var down := Broken(t, id);
    (s.(rtable := map d | d in t :: AfterLinkFailure(t[d], id)),
     if down == map[] then [] else [Rerr(s.index, down)])
  }

  /** nb_delete: the neighbour set changes, then the link is treated as broken. */
  function LoseNeighbour(s: Node, id: Addr): (Node, seq<Msg>) {
    LinkFailure(s.(seqno := s.seqno + 2, nbrs := s.nbrs - {id}), id)
  }

  function AfterExpiry(e: Entry): Entry {
    if e.flag == Up then RtDown(e.(seqno := e.seqno + 1)) else e
  }

  function PurgeRoutes(s: Node, expired: set<Addr>): Node {
    s.(rtable := map d | d in s.rtable :: if d in expired then AfterExpiry(s.rtable[d]) else s.rtable[d])
  }

  function PurgeIds(s: Node, expired: set<(Addr, nat)>): Node {
    s.(bcache := s.bcache - expired)
  }

  // ----- neighbours -----

  function RecvHello(s: Node, from: Addr): Node {
    if from in s.nbrs then s else s.(seqno := s.seqno + 2, nbrs := s.nbrs + {from})
  }

  // ----- originating -----

  /** sendRequest, for a destination that has an entry; the time to live of the ring search is the caller's. */
  function SendRequest(s: Node, dst: Addr, ttl: nat): (Node, seq<Msg>)
    requires dst in s.rtable
  {
    if s.rtable[dst].flag == Up then (s, [])
    else (s.(seqno := s.seqno + 2, bid := s.bid + 1),
          [Rreq(s.index, 1, s.bid, dst, s.rtable[dst].seqno, s.index, s.seqno + 2, ttl)])
  }

  /** rt_resolve: a data packet goes on over a route that is up; `quiet` when the rate limit holds a request back. */
  function Resolve(s: Node, pkt: Pkt, quiet: bool, ttl: nat): (Node, seq<Msg>) {
    var added := s.(rtable := s.rtable[pkt.dst := Lookup(s.rtable, pkt.dst)]);
    var rt := added.rtable[pkt.dst];
    if rt.flag == Up then (added, [Hop(s.index, rt.nexthop, pkt)])
    else if pkt.src == s.index then (if quiet then (added, []) else SendRequest(added, pkt.dst, ttl))
    else if rt.flag == InRepair then (added, [])
    else (added, [Rerr(s.index, map[pkt.dst := rt.seqno])])
  }

  // ----- local repair, the optional feature of ns-2.35/aodv/aodv.h -----

  /** local_rt_repair: mark the route and ask for a new one. */
  function StartRepair(s: Node, dst: Addr, quiet: bool, ttl: nat): (Node, seq<Msg>)
    requires dst in s.rtable
  {
    var marked := s.(rtable := s.rtable[dst := s.rtable[dst].(flag := InRepair)]);
    if quiet then (marked, []) else SendRequest(marked, dst, ttl)
  }

  /** The repair timer: the route goes down without a new sequence number. */
  function RepairTimeout(s: Node, dst: Addr): Node {
    if dst in s.rtable && s.rtable[dst].flag != Up
    then s.(rtable := s.rtable[dst := RtDown(s.rtable[dst])])
    else s
  }

  /** The agent itself. Every method is proved to do to State() what the function of the same handler says. */
  class Aodv {
    const index: Addr
    var seqno: nat
    var bid: nat
    var rtable: Table
    var bcache: set<(Addr, nat)>
    var nbrs: set<Addr>

    function State(): Node
      reads this
    {
      Node(index, seqno, bid, rtable, bcache, nbrs)
    }

    constructor (id: Addr)
      ensures State() == InitialNode(id)
    {
      index := id;
      seqno, bid := 2, 1;
      rtable, bcache, nbrs := map[], {}, {};
    }

    method RtUpdateAt(d: Addr, sn: nat, hops: nat, nexthop: Addr)
      requires d in rtable
      modifies `rtable
      ensures rtable == old(rtable)[d := RtUpdate(old(rtable)[d], sn, hops, nexthop)]
    {
      var rt := rtable[d];
      rt := rt.(seqno := sn);
      rt := rt.(hops := hops);
      rt := rt.(flag := Up);
      rt := rt.(nexthop := nexthop);
      rtable := rtable[d := rt];
    }

    method RtDownAt(d: Addr)
      requires d in rtable
      modifies `rtable
      ensures rtable == old(rtable)[d := RtDown(old(rtable)[d])]
    {
      var rt := rtable[d];
      if rt.flag == Down {
        assert rtable == rtable[d := rt];
        return;
      }
      rt := rt.(hops := INFINITY2);
      rt := rt.(flag := Down);
      rt := rt.(nexthop := 0);
      rtable := rtable[d := rt];
    }

    method PcInsert(d: Addr, id: Addr)
      requires d in rtable
      modifies `rtable
      ensures rtable == old(rtable)[d := old(rtable)[d].(precursors := old(rtable)[d].precursors + {id})]
    {
      if id !in rtable[d].precursors {
        rtable := rtable[d := rtable[d].(precursors := rtable[d].precursors + {id})];
      } else {
        assert rtable[d].precursors + {id} == rtable[d].precursors;
        assert rtable == rtable[d := rtable[d]];
      }
    }

    method OnRequest(rq: Msg) returns (out: seq<Msg>)
      requires rq.Rreq?
      modifies this
      ensures (State(), out) == RecvRequest(old(State()), rq)
    {
      out := [];
      if rq.src == index {
        return;
      }
      if (rq.src, rq.bid) in bcache {
        return;
      }
      bcache := bcache + {(rq.src, rq.bid)};
      if rq.src !in rtable {
        rtable := rtable[rq.src := FreshEntry];
      }
      ghost var was := rtable[rq.src];
      if rq.srcSeq > rtable[rq.src].seqno
         || (rq.srcSeq == rtable[rq.src].seqno && rq.hop < rtable[rq.src].hops) {
        RtUpdateAt(rq.src, rq.srcSeq, rq.hop, rq.from);
      }
      assert rtable == old(rtable)[rq.src := ReverseRoute(was, rq)];
      if rq.dst == index {
        seqno := Max(seqno, rq.dstSeq) + 1;
        if seqno % 2 == 1 {
          seqno := seqno + 1;
        }
        out := SendReply(rq.src, 1, index, seqno);
      } else if rq.dst in rtable && rtable[rq.dst].hops != INFINITY2 && rtable[rq.dst].seqno >= rq.dstSeq {
        out := SendReply(rq.src, rtable[rq.dst].hops + 1, rq.dst, rtable[rq.dst].seqno);
        PcInsert(rq.dst, rtable[rq.src].nexthop);
        PcInsert(rq.src, rtable[rq.dst].nexthop);
      } else {
        var asked := rq.dstSeq;
        if rq.dst in rtable {
          asked := Max(rtable[rq.dst].seqno, asked);
        }
        out := Forward(Rreq(index, U8(rq.hop + 1), rq.bid, rq.dst, asked, rq.src, rq.srcSeq, rq.ttl - 1));
      }
    }

    method SendReply(ipdst: Addr, hop: nat, dst: Addr, dstSeq: nat) returns (out: seq<Msg>)
      requires ipdst in rtable
      ensures out == [Rrep(index, rtable[ipdst].nexthop, ipdst, U8(hop), dst, dstSeq, NETWORK_DIAMETER)]
    {
      out := [Rrep(index, rtable[ipdst].nexthop, ipdst, U8(hop), dst, dstSeq, NETWORK_DIAMETER)];
    }

    method OnReply(rp: Msg) returns (out: seq<Msg>)
      requires rp.Rrep?
      modifies this
      ensures (State(), out) == RecvReply(old(State()), rp)
    {
      out := [];
      if rp.dst !in rtable {
        rtable := rtable[rp.dst := FreshEntry];
      }
      var suppress := false;
      if rtable[rp.dst].seqno < rp.dstSeq
         || (rtable[rp.dst].seqno == rp.dstSeq && rtable[rp.dst].hops > rp.hop) {
        RtUpdateAt(rp.dst, rp.dstSeq, rp.hop, rp.from);
        assert rtable == old(rtable)[rp.dst := RtUpdate(Lookup(old(rtable), rp.dst), rp.dstSeq, rp.hop, rp.from)];
      } else {
        suppress := true;
        assert rtable == old(rtable)[rp.dst := Lookup(old(rtable), rp.dst)];
      }
      if rp.ipdst == index || suppress {
        return;
      }
      if rp.ipdst in rtable && rtable[rp.ipdst].hops != INFINITY2 {
        var back := rtable[rp.ipdst].nexthop;
        out := Forward(Rrep(index, back, rp.ipdst, U8(rp.hop + 1), rp.dst, rp.dstSeq, rp.ttl - 1));
        PcInsert(rp.dst, back);
      }
    }

    /** One destination of an error, with what there is to report so far. */
    method TakeError(d: Addr, er: Msg, soFar: map<Addr, nat>) returns (down: map<Addr, nat>)
      requires er.Rerr? && d in er.unreachable
      modifies `rtable
      ensures rtable == if d in old(rtable) then old(rtable)[d := AfterError(old(rtable), d, er)] else old(rtable)
      ensures down == if Spreads(old(rtable), d, er) then soFar[d := er.unreachable[d]] else soFar
    {
      down := soFar;
      if d in rtable && rtable[d].hops != INFINITY2 && rtable[d].nexthop == er.from
         && rtable[d].seqno <= er.unreachable[d] {
        rtable := rtable[d := rtable[d].(seqno := er.unreachable[d])];
        RtDownAt(d);
        if rtable[d].precursors != {} {
          down := down[d := rtable[d].seqno];
          rtable := rtable[d := rtable[d].(precursors := {})];
        }
      } else if d in rtable {
        assert rtable == rtable[d := rtable[d]];
      }
    }

    method OnError(er: Msg) returns (out: seq<Msg>)
      requires er.Rerr?
      modifies this
      ensures (State(), out) == RecvError(old(State()), er)
    {
      ghost var t := rtable;
      var down: map<Addr, nat> := map[];
      var todo := er.unreachable.Keys;
      while todo != {}
        modifies `rtable
        invariant todo <= er.unreachable.Keys && ErrorsTaken(t, er, todo, rtable, down)
        decreases todo
      {
        var d :| d in todo;
        ghost var t1, down1 := rtable, down;
        down := TakeError(d, er, down);
        ErrorTaken(t, er, todo, t1, down1, d, rtable, down);
        todo := todo - {d};
      }
      assert rtable == map d | d in t :: AfterError(t, d, er);
      assert down == Propagated(t, er);
      out := if down == map[] then [] else [Rerr(index, down)];
    }

    method BreakEntry(d: Addr, id: Addr) returns (hit: bool)
      requires d in rtable
      modifies `rtable
      ensures rtable == old(rtable)[d := AfterLinkFailure(old(rtable)[d], id)]
      ensures hit == UsesLink(old(rtable)[d], id)
    {
      hit := rtable[d].hops != INFINITY2 && rtable[d].nexthop == id;
      if hit {
        rtable := rtable[d := rtable[d].(seqno := rtable[d].seqno + 1)];
        RtDownAt(d);
      }
      rtable := rtable[d := rtable[d].(precursors := rtable[d].precursors - {id})];
    }

    method HandleLinkFailure(id: Addr) returns (out: seq<Msg>)
      modifies `rtable
      ensures (State(), out) == LinkFailure(old(State()), id)
    {
      ghost var t := rtable;
      var down: map<Addr, nat> := map[];
      var todo := rtable.Keys;
      while todo != {}
        modifies `rtable
        invariant todo <= t.Keys && rtable.Keys == t.Keys
        invariant forall d | d in t :: rtable[d] == if d in todo then t[d] else AfterLinkFailure(t[d], id)
        invariant forall d :: d in down <==> d in t && d !in todo && UsesLink(t[d], id)
        invariant forall d | d in down :: down[d] == t[d].seqno + 1
        decreases todo
      {
        var d :| d in todo;
        todo := todo - {d};
        var hit := BreakEntry(d, id);
        if hit {
          down := down[d := rtable[d].seqno];
        }
      }
      assert down == Broken(t, id);
      assert rtable == LinkFailure(old(State()), id).0.rtable;
      out := if down == map[] then [] else [Rerr(index, down)];
    }

    method NbDelete(id: Addr) returns (out: seq<Msg>)
      modifies this
      ensures (State(), out) == LoseNeighbour(old(State()), id)
    {
      seqno := seqno + 2;
      nbrs := nbrs - {id};
      out := HandleLinkFailure(id);
    }

    method RtPurge(expired: set<Addr>)
      modifies `rtable
      ensures State() == PurgeRoutes(old(State()), expired)
    {
      ghost var t := rtable;
      var todo := rtable.Keys;
      while todo != {}
        modifies `rtable
        invariant todo <= t.Keys && rtable.Keys == t.Keys
        invariant forall d | d in t :: rtable[d] == if d in todo || d !in expired then t[d] else AfterExpiry(t[d])
        decreases todo
      {
        var d :| d in todo;
        todo := todo - {d};
        if rtable[d].flag == Up && d in expired {
          rtable := rtable[d := rtable[d].(seqno := rtable[d].seqno + 1)];
          RtDownAt(d);
        }
      }
      assert rtable == PurgeRoutes(old(State()), expired).rtable;
    }

    method IdPurge(expired: set<(Addr, nat)>)
      modifies `bcache
      ensures State() == PurgeIds(old(State()), expired)
    {
      bcache := bcache - expired;
    }

    method OnHello(from: Addr)
      modifies this
      ensures State() == RecvHello(old(State()), from)
    {
      if from !in nbrs {
        nbrs := nbrs + {from};
        seqno := seqno + 2;
      }
    }

    method Request(dst: Addr, ttl: nat) returns (out: seq<Msg>)
      requires dst in rtable
      modifies this
      ensures (State(), out) == SendRequest(old(State()), dst, ttl)
    {
      out := [];
      if rtable[dst].flag == Up {
        return;
      }
      var id := bid;
      bid := bid + 1;
      seqno := seqno + 2;
      out := [Rreq(index, 1, id, dst, rtable[dst].seqno, index, seqno, ttl)];
    }

    method RtResolve(pkt: Pkt, quiet: bool, ttl: nat) returns (out: seq<Msg>)
      modifies this
      ensures (State(), out) == Resolve(old(State()), pkt, quiet, ttl)
    {
      out := [];
      var dst := pkt.dst;
      if dst !in rtable {
        rtable := rtable[dst := FreshEntry];
      }
      assert rtable == old(rtable)[dst := Lookup(old(rtable), dst)];
      if rtable[dst].flag == Up {
        out := [Hop(index, rtable[dst].nexthop, pkt)];
      } else if pkt.src == index {
        if !quiet {
          out := Request(dst, ttl);
        }
      } else if rtable[dst].flag == InRepair {
      } else {
        out := [Rerr(index, map[dst := rtable[dst].seqno])];
      }
    }
  }
}
