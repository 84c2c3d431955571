// What an AODV node does with each event, told by what it knew before, what it heard and what it knows afterwards.
module AodvLaws {
  import opened AodvTable
  import opened AodvAgent
  import opened AodvNetwork

  predicate HasHops(t: Table, d: Addr) {
    d in t && t[d].hops != INFINITY2
  }

  function Users(t: Table, d: Addr): set<Addr> {
    Lookup(t, d).precursors
  }

  /** The better of what was known of d and what is offered is known afterwards, and an offer that is taken leads over
      its sender. */
  predicate Learns(t: Table, t': Table, d: Addr, offer: Key, from: Addr) {
    && d in t'
    && if Better(offer, KeyOf(t, d)) then KeyOf(t', d) == offer && t'[d].nexthop == from && t'[d].flag == Up
       else SameRoute(Lookup(t, d), t'[d])
  }

  /** There are entries for what there was and for d, and all routes but that to d are as they were. */
  predicate OthersKept(t: Table, t': Table, d: Addr) {
    t'.Keys == t.Keys + {d} && forall x | x in t && x != d :: SameRoute(t[x], t'[x])
  }

  /** Nothing but table, own number and request cache has changed. */
  predicate SameRest(s: Node, s': Node) {
    s'.index == s.index && s'.bid == s.bid && s'.nbrs == s.nbrs
  }

  // ----- requests -----

  predicate IsNew(s: Node, rq: Msg)
    requires rq.Rreq?
  {
    rq.src != s.index && (rq.src, rq.bid) !in s.bcache
  }

  /** The node is what is looked for, or has a route as new as asked for. */
  predicate CanTell(s: Node, t: Table, rq: Msg)
    requires rq.Rreq?
  {
    rq.dst == s.index || (HasHops(t, rq.dst) && t[rq.dst].seqno >= rq.dstSeq)
  }

  /** The smallest even number above m. */
  predicate NextEven(n: nat, m: nat) {
    n % 2 == 0 && m < n <= m + 2
  }

  /** An answer is as new as asked for, takes the way back that the node now knows, and comes from the destination
      itself under a new number of its own, or from a route one hop further. */
  predicate IsAnswer(s: Node, s': Node, rq: Msg, m: Msg)
    requires rq.Rreq? && rq.src in s'.rtable && (rq.dst != s.index ==> rq.dst in s'.rtable)
  {
    && m.Rrep? && m.from == s.index && m.nexthop == s'.rtable[rq.src].nexthop && m.ipdst == rq.src
    && m.dst == rq.dst && m.dstSeq >= rq.dstSeq && m.ttl == NETWORK_DIAMETER
    && if rq.dst == s.index then m.hop == 1 && m.dstSeq == s'.seqno && NextEven(s'.seqno, Max(s.seqno, rq.dstSeq))
       else m.hop == U8(s'.rtable[rq.dst].hops + 1) && m.dstSeq == s'.rtable[rq.dst].seqno && s'.seqno == s.seqno
  }

  /** A request that goes on asks for the newest number anybody on its way has heard of. */
  predicate IsPassedOn(s: Node, s': Node, rq: Msg, m: Msg)
    requires rq.Rreq?
  {
    && m.Rreq? && m.from == s.index && m.hop == U8(rq.hop + 1) && m.ttl == rq.ttl - 1
    && m.bid == rq.bid && m.dst == rq.dst && m.src == rq.src && m.srcSeq == rq.srcSeq
    && m.dstSeq >= rq.dstSeq && m.dstSeq >= KeyOf(s'.rtable, rq.dst).seqno
    && (m.dstSeq == rq.dstSeq || m.dstSeq == KeyOf(s'.rtable, rq.dst).seqno)
  }

  /** Who answers from a route will tell each side of errors on the other. */
  ghost predicate Joined(s: Node, s': Node, rq: Msg, answered: bool)
    requires rq.Rreq? && rq.src in s'.rtable && (answered ==> rq.dst in s'.rtable)
  {
    forall x :: Users(s'.rtable, x) == Users(s.rtable, x)
                                       + (if answered && x == rq.dst then {s'.rtable[rq.src].nexthop} else {})
                                       + (if answered && x == rq.src then {s'.rtable[rq.dst].nexthop} else {})
  }

  /** What the node knows afterwards. */
  ghost predicate Hears(s: Node, rq: Msg, s': Node)
    requires rq.Rreq?
  {
    && SameRest(s, s') && s'.bcache == s.bcache + {(rq.src, rq.bid)}
    && Learns(s.rtable, s'.rtable, rq.src, Offer(rq), rq.from) && OthersKept(s.rtable, s'.rtable, rq.src)
    && Joined(s, s', rq, rq.dst != s.index && CanTell(s, s'.rtable, rq))
  }

  /** What it sends. */
  predicate Responds(s: Node, rq: Msg, s': Node, out: seq<Msg>)
    requires rq.Rreq? && rq.src in s'.rtable
  {
    if CanTell(s, s'.rtable, rq) then |out| == 1 && IsAnswer(s, s', rq, out[0])
    else
      && s'.seqno == s.seqno
      && if rq.ttl == 1 then out == [] else |out| == 1 && IsPassedOn(s, s', rq, out[0])
  }

  ghost predicate DoesRequest(s: Node, rq: Msg, s': Node, out: seq<Msg>)
    requires rq.Rreq?
  {
    if !IsNew(s, rq) then s' == s && out == [] else Hears(s, rq, s') && Responds(s, rq, s', out)
  }

  lemma WayBack(s: Node, rq: Msg)
    requires rq.Rreq? && IsNew(s, rq)
    ensures Learns(s.rtable, RecvRequest(s, rq).0.rtable, rq.src, Offer(rq), rq.from)
    ensures OthersKept(s.rtable, RecvRequest(s, rq).0.rtable, rq.src)
  {
  }

  lemma RequestHeard(s: Node, rq: Msg)
    requires rq.Rreq? && IsNew(s, rq)
    ensures Hears(s, rq, RecvRequest(s, rq).0)
  {
    WayBack(s, rq);
  }

  lemma RequestSent(s: Node, rq: Msg)
    requires rq.Rreq? && IsNew(s, rq)
    ensures Responds(s, rq, RecvRequest(s, rq).0, RecvRequest(s, rq).1)
  {
  }

  lemma RequestLaw(s: Node, rq: Msg)
    requires rq.Rreq?
    ensures DoesRequest(s, rq, RecvRequest(s, rq).0, RecvRequest(s, rq).1)
  {
    if IsNew(s, rq) {
      RequestHeard(s, rq);
      RequestSent(s, rq);
    }
  }

  // ----- replies -----

  /** The reply was better than what the node knew, is for somebody else, and the node knows the way there. */
  predicate GoesOn(s: Node, s': Node, rp: Msg)
    requires rp.Rrep?
  {
    Better(Offer(rp), KeyOf(s.rtable, rp.dst)) && rp.ipdst != s.index && HasHops(s'.rtable, rp.ipdst)
  }

  ghost predicate DoesReply(s: Node, rp: Msg, s': Node, out: seq<Msg>)
    requires rp.Rrep?
  {
    && SameRest(s, s') && s'.bcache == s.bcache && s'.seqno == s.seqno
    && Learns(s.rtable, s'.rtable, rp.dst, Offer(rp), rp.from) && OthersKept(s.rtable, s'.rtable, rp.dst)
    && (forall x :: Users(s'.rtable, x) == Users(s.rtable, x) + if GoesOn(s, s', rp) && x == rp.dst
                                                               then {s'.rtable[rp.ipdst].nexthop} else {})
    && out == if GoesOn(s, s', rp) && rp.ttl != 1
              then [Rrep(s.index, s'.rtable[rp.ipdst].nexthop, rp.ipdst, U8(rp.hop + 1), rp.dst, rp.dstSeq, rp.ttl - 1)]
              else []
  }

  lemma ReplyLaw(s: Node, rp: Msg)
    requires rp.Rrep?
    ensures DoesReply(s, rp, RecvReply(s, rp).0, RecvReply(s, rp).1)
  {
  }

  // ----- routes that are lost -----

  /** A route that is down has no hop count. */
  predicate Sane(s: Node) {
    forall d | d in s.rtable && s.rtable[d].flag == Down :: s.rtable[d].hops == INFINITY2
  }

  /** The route is down under this number. */
  predicate IsLost(e: Entry, seqno: nat) {
    e.flag == Down && e.hops == INFINITY2 && e.seqno == seqno
  }

  /** The one message sent lists exactly these destinations with their numbers; none is sent if there are none. */
  ghost predicate Tells(index: Addr, t: Table, t': Table, lost: set<Addr>, out: seq<Msg>) {
    if lost == {} then out == []
    else
      && |out| == 1 && out[0].Rerr? && out[0].from == index && out[0].unreachable.Keys == lost
      && forall d | d in lost && d in t' :: out[0].unreachable[d] == t'[d].seqno
  }

  /** The route to d leads over the sender of the error and is not newer than what the error says. */
  predicate Hit(t: Table, d: Addr, er: Msg)
    requires er.Rerr?
  {
    HasHops(t, d) && d in er.unreachable && t[d].nexthop == er.from && t[d].seqno <= er.unreachable[d]
  }

  /** The routes that are lost with it and that somebody uses. */
  function ToldOf(t: Table, er: Msg): set<Addr>
    requires er.Rerr?
  {
    set d | d in t && Hit(t, d, er) && Users(t, d) != {}
  }

  ghost predicate DoesError(s: Node, er: Msg, s': Node, out: seq<Msg>)
    requires er.Rerr?
  {
    && SameRest(s, s') && s'.bcache == s.bcache && s'.seqno == s.seqno && s'.rtable.Keys == s.rtable.Keys
    && (forall d | d in s.rtable ::
          if Hit(s.rtable, d, er) then IsLost(s'.rtable[d], er.unreachable[d]) && s'.rtable[d].precursors == {}
          else s'.rtable[d] == s.rtable[d])
    && Tells(s.index, s.rtable, s'.rtable, ToldOf(s.rtable, er), out)
  }

  lemma ErrorLaw(s: Node, er: Msg)
    requires er.Rerr? && Sane(s)
    ensures DoesError(s, er, RecvError(s, er).0, RecvError(s, er).1)
  {
    var down := Propagated(s.rtable, er);
    assert down.Keys == ToldOf(s.rtable, er);
  }

  predicate Over(t: Table, d: Addr, nbr: Addr) {
    HasHops(t, d) && t[d].nexthop == nbr
  }

  function AllOver(t: Table, nbr: Addr): set<Addr> {
    set d | d in t && Over(t, d, nbr)
  }

  /** The neighbour is gone: all routes over it are lost, under the next number, and told of; it need not be told of
      anything any more. */
  ghost predicate DoesLoseLink(s: Node, nbr: Addr, s': Node, out: seq<Msg>) {
    && s'.index == s.index && s'.bid == s.bid && s'.bcache == s.bcache && s'.rtable.Keys == s.rtable.Keys
    && s'.nbrs == s.nbrs - {nbr} && s'.seqno == s.seqno + 2
    && (forall d | d in s.rtable ::
          && (if Over(s.rtable, d, nbr) then IsLost(s'.rtable[d], s.rtable[d].seqno + 1)
              else SameRoute(s.rtable[d], s'.rtable[d]))
          && s'.rtable[d].precursors == s.rtable[d].precursors - {nbr})
    && Tells(s.index, s.rtable, s'.rtable, AllOver(s.rtable, nbr), out)
  }

  lemma LinkLaw(s: Node, nbr: Addr)
    requires Sane(s)
    ensures DoesLoseLink(s, nbr, LoseNeighbour(s, nbr).0, LoseNeighbour(s, nbr).1)
  {
    var down := Broken(s.rtable, nbr);
    assert down.Keys == AllOver(s.rtable, nbr);
  }

  /** Exactly the up routes that have expired are lost, under the next number. */
  predicate DoesPurge(s: Node, expired: set<Addr>, s': Node) {
    && SameRest(s, s') && s'.bcache == s.bcache && s'.seqno == s.seqno && s'.rtable.Keys == s.rtable.Keys
    && forall d | d in s.rtable ::
         if d in expired && s.rtable[d].flag == Up
         then IsLost(s'.rtable[d], s.rtable[d].seqno + 1) && s'.rtable[d].precursors == s.rtable[d].precursors
         else s'.rtable[d] == s.rtable[d]
  }

  lemma PurgeLaw(s: Node, expired: set<Addr>)
    ensures DoesPurge(s, expired, PurgeRoutes(s, expired))
  {
  }

  // ----- asking and sending -----

  /** The node asks for d, if it has no route, under new numbers of its own and for its last number of d. */
  predicate DoesAsk(s: Node, d: Addr, ttl: nat, s': Node, out: seq<Msg>)
    requires d in s.rtable
  {
    && s'.index == s.index && s'.nbrs == s.nbrs && s'.bcache == s.bcache && s'.rtable == s.rtable
    && if s.rtable[d].flag == Up then s' == s && out == []
       else
         && s'.seqno == s.seqno + 2 && s'.bid == s.bid + 1 && |out| == 1 && out[0].Rreq?
         && out[0].from == out[0].src == s.index && out[0].hop == 1 && out[0].ttl == ttl
         && out[0].bid == s.bid && out[0].srcSeq == s'.seqno
         && out[0].dst == d && out[0].dstSeq == s.rtable[d].seqno
  }

  lemma AskLaw(s: Node, d: Addr, ttl: nat)
    requires d in s.rtable
    ensures DoesAsk(s, d, ttl, SendRequest(s, d, ttl).0, SendRequest(s, d, ttl).1)
  {
  }

  /** A data packet goes to the next hop of an up route. Without one the node asks if the packet is its own, waits if it
      is repairing the route, and otherwise says that it has none. */
  predicate DoesData(s: Node, pkt: Pkt, quiet: bool, ttl: nat, s': Node, out: seq<Msg>) {
    var e := Lookup(s.rtable, pkt.dst);
    var known := s.(rtable := s.rtable[pkt.dst := e]);
    if e.flag != Up && pkt.src == s.index && !quiet then DoesAsk(known, pkt.dst, ttl, s', out)
    else
      && s' == known
      && out == if e.flag == Up then [Hop(s.index, e.nexthop, pkt)]
                else if pkt.src == s.index || e.flag == InRepair then []
                else [Rerr(s.index, map[pkt.dst := e.seqno])]
  }

  lemma DataLaw(s: Node, pkt: Pkt, quiet: bool, ttl: nat)
    ensures DoesData(s, pkt, quiet, ttl, Resolve(s, pkt, quiet, ttl).0, Resolve(s, pkt, quiet, ttl).1)
  {
  }

  // ----- any event -----

  predicate DoesHello(s: Node, from: Addr, s': Node) {
    && s'.rtable == s.rtable && s'.bcache == s.bcache && s'.index == s.index && s'.bid == s.bid
    && s'.nbrs == s.nbrs + {from} && s'.seqno == if from in s.nbrs then s.seqno else s.seqno + 2
  }

  /** The route is under repair, and asked for. */
  predicate DoesRepair(s: Node, d: Addr, quiet: bool, ttl: nat, s': Node, out: seq<Msg>)
    requires d in s.rtable
  {
    var marked := s.(rtable := s.rtable[d := s.rtable[d].(flag := InRepair)]);
    if quiet then s' == marked && out == [] else DoesAsk(marked, d, ttl, s', out)
  }

  /** If the route has not come up again it is lost, under the number it had. */
  predicate DoesGiveUp(s: Node, d: Addr, s': Node) {
    && SameRest(s, s') && s'.bcache == s.bcache && s'.seqno == s.seqno && s'.rtable.Keys == s.rtable.Keys
    && forall x | x in s.rtable ::
         if x == d && s.rtable[x].flag == InRepair then IsLost(s'.rtable[x], s.rtable[x].seqno)
         else s'.rtable[x] == s.rtable[x]
  }

  /** What the event does to its node, and what the node sends. */
  ghost predicate Does(s: Node, e: Event, s': Node, out: seq<Msg>) {
    match e
    case Receive(_, m) => (
      match m
      case Rreq(_, _, _, _, _, _, _, _) => DoesRequest(s, m, s', out)
      case Rrep(_, _, _, _, _, _, _) => DoesReply(s, m, s', out)
      case Rerr(_, _) => DoesError(s, m, s', out)
      case Hello(from) => DoesHello(s, from, s') && out == []
      case Hop(_, _, _) => true)
    case Data(_, pkt, quiet, ttl) => DoesData(s, pkt, quiet, ttl, s', out)
    case Request(_, dst, ttl) => dst in s.rtable && DoesAsk(s, dst, ttl, s', out)
    case LoseLink(_, nbr) => DoesLoseLink(s, nbr, s', out)
    case Expire(_, routes) => DoesPurge(s, routes, s') && out == []
    case Forget(_, ids) => s' == s.(bcache := s.bcache - ids) && out == []
    case Greet(_) => s' == s && out == [Hello(s.index)]
    case Repair(_, dst, _, quiet, ttl) => dst in s.rtable && DoesRepair(s, dst, quiet, ttl, s', out)
    case RepairOver(_, dst) => DoesGiveUp(s, dst, s') && out == []
  }

  lemma HandleLaw(s: Node, e: Event)
    requires Sane(s) && (e.Receive? ==> !e.msg.Hop?) && (e.Request? || e.Repair? ==> e.dst in s.rtable)
    ensures Does(s, e, Handle(s, e).0, Handle(s, e).1)
  {
    match e
    case Receive(_, m) =>
      match m {
        case Rreq(_, _, _, _, _, _, _, _) => RequestLaw(s, m);
        case Rrep(_, _, _, _, _, _, _) => ReplyLaw(s, m);
        case Rerr(_, _) => ErrorLaw(s, m);
        case Hello(_) => assert m.from in s.nbrs ==> s.nbrs + {m.from} == s.nbrs;
        case Hop(_, _, _) =>
      }
    case Data(_, pkt, quiet, ttl) => DataLaw(s, pkt, quiet, ttl);
    case Request(_, dst, ttl) => AskLaw(s, dst, ttl);
    case LoseLink(_, nbr) => LinkLaw(s, nbr);
    case Expire(_, routes) => PurgeLaw(s, routes);
    case _ =>
  }

  // ----- runs -----

  lemma SaneStays(s: Node, e: Event)
    requires Sane(s) && (e.Receive? ==> !e.msg.Hop?) && (e.Request? || e.Repair? ==> e.dst in s.rtable)
    ensures Sane(Handle(s, e).0) && Handle(s, e).0.index == s.index
  {
  }

  ghost predicate AllSane(net: Net) {
    forall n | n in net.nodes :: Sane(net.nodes[n]) && net.nodes[n].index == n
  }

  lemma {:induction false} RunSane(c: Config, run: seq<Net>, i: nat)
    requires IsRun(c, run) && i < |run|
    ensures AllSane(run[i])
  {
    if i > 0 {
      RunSane(c, run, i - 1);
      assert Step(c, run[i - 1], run[i]);
      var e :| Enabled(c, run[i - 1], e) && run[i] == Apply(c, run[i - 1], e);
      SaneStays(run[i - 1].nodes[e.at], e);
    }
  }

  /** In every reachable state of any network, every event does what it should. */
  lemma EventLaw(c: Config, net: Net, e: Event)
    requires Reachable(c, net) && Enabled(c, net, e)
    ensures Does(net.nodes[e.at], e, Apply(c, net, e).nodes[e.at], Handle(net.nodes[e.at], e).1)
  {
    var run :| IsRun(c, run) && run[|run| - 1] == net;
    RunSane(c, run, |run| - 1);
    HandleLaw(net.nodes[e.at], e);
  }
}
