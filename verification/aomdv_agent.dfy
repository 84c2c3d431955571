// One AOMDV node in the shipped configuration: node-disjoint paths, no link-layer detection.
module AomdvAgent {
  import opened AomdvPaths
  import opened AomdvRtable
  import opened AomdvTable

  const NETWORK_DIAMETER: nat := 30
  const REV_ROUTE_LIFE: real := 6.0
  const ACTIVE_ROUTE_TIMEOUT: real := 10.0
  const MY_ROUTE_TIMEOUT: real := 10.0
  const HELLO_LIFE: real := 4.0

  datatype Limits = Limits(maxPaths: int, maxDiff: int)

  datatype Msg =
    | Rreq(from: Addr, hop: nat, bid: nat, dst: Addr, dstSeq: nat, src: Addr, srcSeq: nat, firstHop: Addr, ttl: int)
    | Rrep(from: Addr, nexthop: Addr, ipdst: Addr, hop: nat, dst: Addr, dstSeq: nat, bid: nat, firstHop: Addr,
           lifetime: real, ttl: int)
    | Rerr(from: Addr, unreachable: map<Addr, nat>)
    | Hello(from: Addr, seqno: nat)

  /** `bcache` maps the requests heard to whether a reply already went back for them. */
  datatype Node = Node(
    index: Addr,
    limits: Limits,
    seqno: nat,
    bid: nat,
    rtable: Table,
    bcache: map<(Addr, nat), bool>,
    nbrs: set<Addr>)

  function InitialNode(index: Addr, limits: Limits): Node {
    Node(index, limits, 2, 1, map[], map[], {})
  }

  function Max(a: nat, b: nat): nat {
    if a > b then a else b
  }

  function U8(n: nat): nat {
    n % 256
  }

  function Forward(m: Msg): seq<Msg>
    requires m.Rreq? || m.Rrep?
  {
    if m.ttl == 0 then [] else [m]
  }

  /** The first path's lifetime after it was used to forward something. */
  function Used(e: Entry, now: real): Entry
    requires e.paths != []
  {
    e.(paths := e.paths[0 := e.paths[0].(expire := now + ACTIVE_ROUTE_TIMEOUT)])
  }

  // ----- route requests -----

  /** What hearing a request does to the reverse route: the entry, whether a path now stands for
      this request, and whether the request goes no further. */
  datatype Reverse = Reverse(entry: Entry, path: bool, dropped: bool)

  function FirstHop(s: Node, rq: Msg): Addr
    requires rq.Rreq?
  {
    if rq.hop == 0 then s.index else rq.firstHop
  }

  function ReverseRoute(s: Node, rq: Msg, now: real): Reverse
    requires rq.Rreq?
  {
    ReverseOf(Lookup(s.rtable, rq.src), rq, Path(rq.from, rq.hop + 1, now + REV_ROUTE_LIFE, FirstHop(s, rq)),
              s.index, s.limits)
  }

  function ReverseOf(e: Entry, rq: Msg, p: Path, index: Addr, limits: Limits): Reverse
    requires rq.Rreq?
  {
    if e.seqno < rq.srcSeq then Reverse(Renewed(e, rq.srcSeq, p), true, false)
    else if e.seqno == rq.srcSeq && e.adv > rq.hop then SameReverse(e, rq, p, index, limits)
    else Reverse(e, false, true)
  }

  /** A request under the sequence number the entry has already offers the path p. */
  function SameReverse(e: Entry, rq: Msg, p: Path, index: Addr, limits: Limits): Reverse
    requires rq.Rreq?
  {
    var known := Same(p.nexthop, p.lasthop);
    if Has(e.paths, known) then Reverse(e.(paths := Extend(e.paths, known, p.expire)), true, false)
    else if !Has(e.paths, Meets(p.nexthop, p.lasthop)) then NewReverse(e, p, limits)
    else Reverse(e, false, rq.dst == index && Longer(e.paths, p))
  }

  /** A path disjoint from the others comes in if there is room for it and it is not too long. */
  function NewReverse(e: Entry, p: Path, limits: Limits): Reverse {
    if p.hopcount - MinHop(e.paths) > limits.maxDiff then Reverse(e, false, true)
    else if |e.paths| < limits.maxPaths then Reverse(e.(paths := e.paths + [p]), true, false)
    else Reverse(e, false, false)
  }

  /** There is no path with this last hop, or the one there is shorter. */
  predicate Longer(paths: seq<Path>, p: Path) {
    var last := First(paths, LastIs(p.lasthop));
    last == |paths| || p.hopcount > paths[last].hopcount
  }

  /** The sequence number a destination answers with. */
  function AnswerSeqno(seqno: nat, asked: nat): nat {
    var s := if seqno < asked then asked + 1 else seqno;
    if s % 2 == 1 then s + 1 else s
  }

  predicate CanAnswer(t: Table, rq: Msg)
    requires rq.Rreq?
  {
    rq.dst in t && t[rq.dst].flag == Up && t[rq.dst].seqno >= rq.dstSeq
  }

  /** The node once it has recorded the request and its reverse route. */
  function Heard(s: Node, rq: Msg, now: real): Node
    requires rq.Rreq?
  {
    var id := (rq.src, rq.bid);
    s.(bcache := if id in s.bcache then s.bcache else s.bcache[id := false],
       rtable := s.rtable[rq.src := ReverseRoute(s, rq, now).entry])
  }

  /** A request that was heard is answered by the destination, answered from a fresh enough route, or passed on
      once; `path` tells whether it left a reverse path, `duplicate` whether it was known before. */
  function Respond(h: Node, rq: Msg, path: bool, duplicate: bool, now: real): (Node, seq<Msg>)
    requires rq.Rreq? && rq.src in h.rtable && (rq.src, rq.bid) in h.bcache
  {
    var id := (rq.src, rq.bid);
    if rq.dst == h.index then
      var mine := AnswerSeqno(h.seqno, rq.dstSeq);
      (h.(seqno := mine),
       [Rrep(h.index, rq.from, rq.src, 0, h.index, mine, rq.bid, rq.from, MY_ROUTE_TIMEOUT, NETWORK_DIAMETER)])
    else if CanAnswer(h.rtable, rq) then
      if path && !h.bcache[id] && h.rtable[rq.dst].paths != [] then
        var rt := Advertised(h.rtable[rq.dst]).(error := true);
        (h.(bcache := h.bcache[id := true], rtable := h.rtable[rq.dst := rt]),
         [Rrep(h.index, rq.from, rq.src, U8(rt.adv), rq.dst, rt.seqno, rq.bid, rt.paths[0].lasthop,
               rt.paths[0].expire - now, NETWORK_DIAMETER)])
      else (h, [])
    else if duplicate || h.rtable[rq.src].paths == [] then (h, [])
    else
      var asked := if rq.dst in h.rtable then Max(h.rtable[rq.dst].seqno, rq.dstSeq) else rq.dstSeq;
      var rt0 := Advertised(h.rtable[rq.src]);
      (h.(rtable := h.rtable[rq.src := rt0]),
       Forward(Rreq(h.index, U8(rt0.adv), rq.bid, rq.dst, asked, rq.src, rq.srcSeq, rt0.paths[0].lasthop, rq.ttl - 1)))
  }

  function RecvRequest(s: Node, rq: Msg, now: real): (Node, seq<Msg>)
    requires rq.Rreq?
  {
    if rq.src == s.index then (s, [])
    else
      var rev := ReverseRoute(s, rq, now);
      var h := Heard(s, rq, now);
      if rev.dropped then (h, []) else Respond(h, rq, rev.path, (rq.src, rq.bid) in s.bcache, now)
  }

  // ----- route replies -----

  /** The entry after a reply offered a path, or nothing when the reply goes no further. */
  datatype Taken = Refused | Taken(entry: Entry)

  function ForwardRoute(s: Node, rp: Msg, now: real): Taken
    requires rp.Rrep?
  {
    var e := Lookup(s.rtable, rp.dst);
    var p := Path(rp.from, rp.hop + 1, now + rp.lifetime, rp.firstHop);
    if e.seqno < rp.dstSeq then Taken(Renewed(e, rp.dstSeq, p))
    else if e.seqno == rp.dstSeq && e.adv > rp.hop then SameForward(e, p, s.limits)
    else Refused
  }

  /** A reply under the sequence number the entry has already offers the path p. */
  function SameForward(e: Entry, p: Path, limits: Limits): Taken {
    var known := Same(p.nexthop, p.lasthop);
    if Has(e.paths, known) then Taken(e.(paths := Extend(e.paths, known, p.expire)))
    else if !Has(e.paths, Meets(p.nexthop, p.lasthop)) && |e.paths| < limits.maxPaths
            && p.hopcount - MinHop(e.paths) <= limits.maxDiff then
      Taken(e.(paths := e.paths + [p]))
    else Refused
  }

  /** The node can send the reply on towards the node that asked, and has not done so before. */
  predicate CanRelay(h: Node, rp: Msg)
    requires rp.Rrep? && rp.dst in h.rtable
  {
    var id := (rp.ipdst, rp.bid);
    && rp.ipdst != h.index && rp.ipdst in h.rtable && h.rtable[rp.ipdst].flag == Up
    && id in h.bcache && !h.bcache[id]
    && h.rtable[rp.ipdst].paths != [] && h.rtable[rp.dst].paths != []
  }

  function Relay(h: Node, rp: Msg, now: real): (Node, seq<Msg>)
    requires rp.Rrep? && rp.dst in h.rtable && CanRelay(h, rp)
  {
    var adv := Advertised(h.rtable[rp.dst]).(error := true);
    var t1 := h.rtable[rp.dst := adv];
    var back := t1[rp.ipdst];
    (h.(bcache := h.bcache[(rp.ipdst, rp.bid) := true], rtable := t1[rp.ipdst := Used(back, now)]),
     Forward(Rrep(h.index, back.paths[0].nexthop, rp.ipdst, U8(adv.adv), rp.dst, rp.dstSeq, rp.bid,
                  adv.paths[0].lasthop, rp.lifetime, rp.ttl - 1)))
  }

  function RecvReply(s: Node, rp: Msg, now: real): (Node, seq<Msg>)
    requires rp.Rrep?
  {
    if rp.dst == s.index then (s, [])
    else
      match ForwardRoute(s, rp, now)
      case Refused => (s.(rtable := s.rtable[rp.dst := Lookup(s.rtable, rp.dst)]), [])
      case Taken(rt) =>
        var h := s.(rtable := s.rtable[rp.dst := rt]);
        if CanRelay(h, rp) then Relay(h, rp, now) else (h, [])
  }

  /** A hello is taken as a reply about the neighbour itself. */
  function AsReply(s: Node, m: Msg): Msg
    requires m.Hello?
  {
    Rrep(m.from, s.index, s.index, 0, m.from, m.seqno, 0, s.index, HELLO_LIFE, 0)
  }

  function RecvHello(s: Node, m: Msg, now: real): Node
    requires m.Hello?
  {
    RecvReply(s.(nbrs := s.nbrs + {m.from}), AsReply(s, m), now).0
  }

  // ----- route errors and broken links -----

  predicate ErrorHits(t: Table, d: Addr, er: Msg)
    requires er.Rerr?
  {
    d in t && d in er.unreachable && t[d].flag == Up && Has(t[d].paths, NextIs(er.from))
    && t[d].seqno <= er.unreachable[d]
  }

  function AfterError(t: Table, d: Addr, er: Msg): Entry
    requires er.Rerr? && d in t
  {
    if !ErrorHits(t, d, er) then t[d]
    else
      var e := t[d].(paths := Delete(t[d].paths, NextIs(er.from)), highest := Max(t[d].highest, er.unreachable[d]));
      if e.paths != [] then e else RtDown(e.(seqno := e.highest, error := false))
  }

  /** The route to d goes down under the error, and this node had advertised it. */
  predicate ErrorSpreads(t: Table, d: Addr, er: Msg)
    requires er.Rerr?
  {
    d in t && ErrorHits(t, d, er) && AfterError(t, d, er).paths == [] && t[d].error
  }

  function Propagated(t: Table, er: Msg): map<Addr, nat>
    requires er.Rerr?
  {
    map d | d in t && ErrorSpreads(t, d, er) :: AfterError(t, d, er).seqno
  }

  function RecvError(s: Node, er: Msg): (Node, seq<Msg>)
    requires er.Rerr?
  {
    var down := Propagated(s.rtable, er);
    (s.(rtable := map d | d in s.rtable :: AfterError(s.rtable, d, er)),
     if down == map[] then [] else [Rerr(s.index, down)])
  }

  // What looking at one destination after the other has led to so far.

  predicate ErrorsTaken(t: Table, er: Msg, todo: set<Addr>, now: Table, down: map<Addr, nat>)
    requires er.Rerr?
  {
    && now.Keys == t.Keys
    && (forall d | d in t :: now[d] == if d in er.unreachable && d !in todo then AfterError(t, d, er) else t[d])
    && (forall d | d in er.unreachable && d !in todo && ErrorSpreads(t, d, er) :: d in down)
    && (forall d | d in down ::
          d in er.unreachable && d !in todo && ErrorSpreads(t, d, er) && down[d] == AfterError(t, d, er).seqno)
  }

  /** One more destination. */
  lemma ErrorTaken(t: Table, er: Msg, todo: set<Addr>, now: Table, down: map<Addr, nat>,
                   d: Addr, now': Table, down': map<Addr, nat>)
    requires er.Rerr? && d in todo && todo <= er.unreachable.Keys && ErrorsTaken(t, er, todo, now, down)
    requires now' == if d in now then now[d := AfterError(now, d, er)] else now
    requires down' == if ErrorSpreads(now, d, er) && d in now' then down[d := now'[d].seqno] else down
    ensures ErrorsTaken(t, er, todo - {d}, now', down')
  {
    assert d in t ==> now[d] == t[d];
  }

  lemma ErrorsCollected(s: Node, er: Msg, t: Table, down: map<Addr, nat>)
    requires er.Rerr? && ErrorsTaken(s.rtable, er, {}, t, down)
    ensures t == RecvError(s, er).0.rtable && down == Propagated(s.rtable, er)
  {
  }

  predicate ExpiriesMade(t: Table, now: real, todo: set<Addr>, cur: Table) {
    cur.Keys == t.Keys && forall d | d in t :: cur[d] == if d in todo then t[d] else AfterExpiry(t[d], now)
  }

  lemma ExpiryMade(t: Table, now: real, todo: set<Addr>, cur: Table, d: Addr, cur': Table)
    requires d in todo && todo <= t.Keys && ExpiriesMade(t, now, todo, cur)
    requires cur' == cur[d := AfterExpiry(cur[d], now)]
    ensures ExpiriesMade(t, now, todo - {d}, cur')
  {
  }

  lemma ExpiriesCollected(s: Node, now: real, cur: Table)
    requires ExpiriesMade(s.rtable, now, {}, cur)
    ensures cur == PurgeRoutes(s, now).rtable
  {
  }

  predicate BreaksMade(t: Table, id: Addr, todo: set<Addr>, now: Table, down: map<Addr, nat>) {
    && now.Keys == t.Keys
    && (forall d | d in t :: now[d] == if d in todo then t[d] else AfterLinkFailure(t[d], id))
    && (forall d | d in t && d !in todo && FailureSpreads(t[d], id) :: d in down)
    && (forall d | d in down ::
          d in t && d !in todo && FailureSpreads(t[d], id) && down[d] == AfterLinkFailure(t[d], id).seqno)
  }

  lemma BreakMade(t: Table, id: Addr, todo: set<Addr>, now: Table, down: map<Addr, nat>,
                  d: Addr, now': Table, down': map<Addr, nat>)
    requires d in todo && todo <= t.Keys && BreaksMade(t, id, todo, now, down)
    requires now' == now[d := AfterLinkFailure(now[d], id)]
    requires down' == if FailureSpreads(now[d], id) then down[d := now'[d].seqno] else down
    ensures BreaksMade(t, id, todo - {d}, now', down')
  {
  }

  lemma BreaksCollected(s: Node, id: Addr, t: Table, down: map<Addr, nat>)
    requires BreaksMade(s.rtable, id, {}, t, down)
    ensures t == LinkFailure(s, id).0.rtable && down == Broken(s.rtable, id)
  {
  }

  predicate UsesLink(e: Entry, id: Addr) {
    e.flag == Up && Has(e.paths, NextIs(id))
  }

  function AfterLinkFailure(e: Entry, id: Addr): Entry {
    if !UsesLink(e, id) then e
    else
      var e1 := e.(paths := Delete(e.paths, NextIs(id)));
      if e1.paths != [] then e1 else RtDown(e1.(seqno := Max(e.seqno + 1, e.highest), error := false))
  }

  predicate FailureSpreads(e: Entry, id: Addr) {
    UsesLink(e, id) && AfterLinkFailure(e, id).paths == [] && e.error
  }

  function Broken(t: Table, id: Addr): map<Addr, nat> {
    map d | d in t && FailureSpreads(t[d], id) :: AfterLinkFailure(t[d], id).seqno
  }

  function LinkFailure(s: Node, id: Addr): (Node, seq<Msg>) {
    var down := Broken(s.rtable, id);
    (s.(rtable := map d | d in s.rtable :: AfterLinkFailure(s.rtable[d], id)),
     if down == map[] then [] else [Rerr(s.index, down)])
  }

  function LoseNeighbour(s: Node, id: Addr): (Node, seq<Msg>) {
    LinkFailure(s.(seqno := s.seqno + 2, nbrs := s.nbrs - {id}), id)
  }

  // ----- expiry -----

  function ExpirySeqno(e: Entry): nat {
    var n := Max(e.seqno + 1, e.highest);
    if n % 2 == 0 then n + 1 else n
  }

  function AfterExpiry(e: Entry, now: real): Entry {
    if e.flag != Up || now <= 0.0 then e
    else
      var e1 := e.(paths := Unexpired(e.paths, now));
      if e1.paths != [] then e1 else RtDown(e1.(seqno := ExpirySeqno(e)))
  }

  function PurgeRoutes(s: Node, now: real): Node {
    s.(rtable := map d | d in s.rtable :: AfterExpiry(s.rtable[d], now))
  }

  function PurgeIds(s: Node, expired: set<(Addr, nat)>): Node {
    s.(bcache := s.bcache - expired)
  }

  // ----- originating and forwarding data -----

  function SendRequest(s: Node, dst: Addr, ttl: nat): (Node, seq<Msg>)
    requires dst in s.rtable
  {
    if s.rtable[dst].flag == Up then (s, [])
    else (s.(seqno := s.seqno + 2, bid := s.bid + 1),
          [Rreq(s.index, 0, s.bid, dst, s.rtable[dst].seqno, s.index, s.seqno + 2, 0, ttl)])
  }

  /** rt_resolve: a data packet is forwarded along the first path, asked for, or reported. */
  function Resolve(s: Node, dst: Addr, own: bool, quiet: bool, ttl: nat, now: real): (Node, seq<Msg>) {
    var rt := Lookup(s.rtable, dst);
    var added := s.(rtable := s.rtable[dst := rt]);
    if rt.flag == Up then
      if rt.paths == [] then (added, [])
      else (s.(rtable := s.rtable[dst := Used(rt, now).(error := rt.error || !own)]), [])
    else if own then (if quiet then (added, []) else SendRequest(added, dst, ttl))
    else (added, [Rerr(s.index, map[dst := rt.seqno])])
  }

  predicate HasActiveRoute(t: Table) {
    exists d | d in t :: t[d].flag == Up
  }

  /** The hello timer: nothing is sent while no route is up. */
  function SendHello(s: Node): seq<Msg> {
    if HasActiveRoute(s.rtable) then [Hello(s.index, s.seqno)] else []
  }

  lemma PutBack(t: Table, d: Addr)
    requires d in t
    ensures t[d := t[d]] == t
  {
  }

  lemma PutTwice(t: Table, d: Addr, e: Entry, e': Entry)
    ensures t[d := e][d := e'] == t[d := e']
  {
  }

  /** The agent itself. Every method is proved to do to State() what the function of the same handler says, and to
      keep the routing table in order: in every entry the counter is the length of the linked list of paths. */
  class Aomdv {
    const index: Addr
    const limits: Limits
    var seqno: nat
    var bid: nat
    const rtable: Rtable
    var bcache: map<(Addr, nat), bool>
    var nbrs: set<Addr>

    ghost predicate Valid()
      reads this, rtable, rtable.repr
    {
      rtable.Valid() && this !in rtable.repr
    }

    ghost function State(): Node
      reads this, rtable
    {
      Node(index, limits, seqno, bid, rtable.table, bcache, nbrs)
    }

    constructor (id: Addr, limits: Limits)
      ensures Valid() && fresh(rtable) && fresh(rtable.repr) && State() == InitialNode(id, limits)
    {
      index := id;
      this.limits := limits;
      seqno, bid := 2, 1;
      bcache, nbrs := map[], {};
      rtable := new Rtable();
    }

    /** Creates the entry or brings it up to date with the request; tells whether a path stands for the
        request and whether the request is to be dropped. */
    method UpdateReverse(rq: Msg, first: Addr, now: real) returns (path: bool, dropped: bool)
      requires Valid() && rq.Rreq? && first == FirstHop(State(), rq)
      modifies rtable, rtable.repr
      ensures Valid() && fresh(rtable.repr - old(rtable.repr))
      ensures rtable.table == old(rtable.table)[rq.src := ReverseRoute(old(State()), rq, now).entry]
      ensures path == ReverseRoute(old(State()), rq, now).path
      ensures dropped == ReverseRoute(old(State()), rq, now).dropped
    {
      hide Rtable.Right;
      path, dropped := false, false;
      rtable.Add(rq.src);
      var rt0 := rtable.Get(rq.src);
      var p := Path(rq.from, rq.hop + 1, now + REV_ROUTE_LIFE, first);
      if rt0.seqno < rq.srcSeq {
        rtable.Renew(rq.src, rq.srcSeq, p);
        path := true;
      } else if rt0.seqno == rq.srcSeq && rt0.adv > rq.hop {
        path, dropped := OfferReverse(rq, p);
      } else {
        dropped := true;
      }
    }

    method IsLonger(rt0: RtEntry, p: Path) returns (longer: bool)
      requires rt0.Valid()
      ensures longer == Longer(rt0.paths, p)
    {
      var erp, k := rt0.Search(LastIs(p.lasthop));
      longer := erp == null || p.hopcount > erp.hopcount;
    }

    method InsertReverse(d: Addr, p: Path) returns (path: bool, dropped: bool)
      requires Valid() && d in rtable.table
      modifies rtable, rtable.repr
      ensures Valid() && fresh(rtable.repr - old(rtable.repr))
      ensures var rev := NewReverse(old(rtable.table)[d], p, limits);
              rtable.table == old(rtable.table)[d := rev.entry] && path == rev.path && dropped == rev.dropped
    {
      hide Rtable.Right;
      path := false;
      var rt0 := rtable.Get(d);
      var min := rt0.GetMinHopcount();
      dropped := p.hopcount - min > limits.maxDiff;
      PutBack(rtable.table, d);
      if rt0.numPaths < limits.maxPaths && p.hopcount - min <= limits.maxDiff {
        rtable.Insert(d, p);
        path := true;
      }
    }

    /** An offer under the sequence number the entry has already. */
    method OfferReverse(rq: Msg, p: Path) returns (path: bool, dropped: bool)
      requires Valid() && rq.Rreq? && rq.src in rtable.table
      modifies rtable, rtable.repr
      ensures Valid() && fresh(rtable.repr - old(rtable.repr))
      ensures var rev := SameReverse(old(rtable.table)[rq.src], rq, p, index, limits);
              rtable.table == old(rtable.table)[rq.src := rev.entry] && path == rev.path && dropped == rev.dropped
    {
      hide Rtable.Right;
      path, dropped := false, false;
      var rt0 := rtable.Get(rq.src);
      var known := rt0.Knows(Same(p.nexthop, p.lasthop));
      var disjoint := rt0.NewDisjointPath(p.nexthop, p.lasthop);
      PutBack(rtable.table, rq.src);
      if known {
        path := rtable.Prolong(rq.src, p.nexthop, p.lasthop, p.expire);
      } else if disjoint {
        path, dropped := InsertReverse(rq.src, p);
      } else if rq.dst == index {
        dropped := IsLonger(rt0, p);
      }
    }

    method OnRequest(rq: Msg, now: real) returns (out: seq<Msg>)
      requires Valid() && rq.Rreq?
      modifies this, rtable, rtable.repr
      ensures Valid() && fresh(rtable.repr - old(rtable.repr))
      ensures (State(), out) == RecvRequest(old(State()), rq, now)
    {
      hide Rtable.Right;
      out := [];
      if rq.src == index {
        return;
      }
      var id := (rq.src, rq.bid);
      var duplicate := id in bcache;
      if !duplicate {
        bcache := bcache[id := false];
      }
      var first := rq.firstHop;
      if rq.hop == 0 {
        first := index;
      }
      ghost var rev := ReverseRoute(old(State()), rq, now);
      var path, dropped := UpdateReverse(rq, first, now);
      assert State() == Heard(old(State()), rq, now);
      if !dropped {
        out := Answer(rq, path, duplicate, now);
      }
    }

    method Answer(rq: Msg, path: bool, duplicate: bool, now: real) returns (out: seq<Msg>)
      requires Valid() && rq.Rreq? && rq.src in rtable.table && (rq.src, rq.bid) in bcache
      modifies this, rtable, rtable.repr
      ensures Valid() && fresh(rtable.repr - old(rtable.repr))
      ensures (State(), out) == Respond(old(State()), rq, path, duplicate, now)
    {
      hide Rtable.Right;
      out := [];
      if rq.dst == index {
        if seqno < rq.dstSeq {
          seqno := rq.dstSeq + 1;
        }
        if seqno % 2 == 1 {
          seqno := seqno + 1;
        }
        out := [Rrep(index, rq.from, rq.src, 0, index, seqno, rq.bid, rq.from, MY_ROUTE_TIMEOUT, NETWORK_DIAMETER)];
        return;
      }
      var known := rtable.Knows(rq.dst);
      var asked, able := rq.dstSeq, false;
      if known {
        var rt := rtable.Get(rq.dst);
        asked := Max(rt.seqno, asked);
        able := rt.flag == Up && rt.seqno >= rq.dstSeq;
      }
      if able {
        out := AnswerFor(rq, path, duplicate, now);
      } else if !duplicate {
        out := PassOn(rq, asked, path, now);
      }
    }

    /** A reply from the routing table. */
    method AnswerFor(rq: Msg, path: bool, ghost duplicate: bool, now: real) returns (out: seq<Msg>)
      requires Valid() && rq.Rreq? && rq.src in rtable.table && (rq.src, rq.bid) in bcache
      requires rq.dst != index && CanAnswer(rtable.table, rq)
      modifies `bcache, rtable, rtable.repr
      ensures Valid() && rtable.repr == old(rtable.repr)
      ensures (State(), out) == Respond(old(State()), rq, path, duplicate, now)
    {
      hide Rtable.Right;
      out := [];
      var id := (rq.src, rq.bid);
      var rt := rtable.Get(rq.dst);
      var empty := rt.PathEmpty();
      var n := rt.seqno;
      if path && !bcache[id] && !empty {
        bcache := bcache[id := true];
        var hops, first := rtable.Announce(rq.dst, true);
        out := [Rrep(index, rq.from, rq.src, U8(hops), rq.dst, n, rq.bid, first.lasthop, first.expire - now,
                     NETWORK_DIAMETER)];
      }
    }

    method PassOn(rq: Msg, asked: nat, ghost path: bool, ghost now: real) returns (out: seq<Msg>)
      requires Valid() && rq.Rreq? && rq.src in rtable.table && (rq.src, rq.bid) in bcache
      requires rq.dst != index && !CanAnswer(rtable.table, rq)
      requires asked == if rq.dst in rtable.table then Max(rtable.table[rq.dst].seqno, rq.dstSeq) else rq.dstSeq
      modifies rtable, rtable.repr
      ensures Valid() && rtable.repr == old(rtable.repr)
      ensures (State(), out) == Respond(old(State()), rq, path, false, now)
    {
      hide Rtable.Right;
      out := [];
      var rt0 := rtable.Get(rq.src);
      var empty := rt0.PathEmpty();
      if !empty {
        var hops, first := rtable.Announce(rq.src, false);
        out := Forward(Rreq(index, U8(hops), rq.bid, rq.dst, asked, rq.src, rq.srcSeq, first.lasthop, rq.ttl - 1));
      }
    }

    method UpdateForward(rp: Msg, now: real) returns (taken: bool)
      requires Valid() && rp.Rrep?
      modifies rtable, rtable.repr
      ensures Valid() && fresh(rtable.repr - old(rtable.repr))
      ensures var t := ForwardRoute(old(State()), rp, now);
              && taken == t.Taken?
              && rtable.table ==
                 old(rtable.table)[rp.dst := if taken then t.entry else Lookup(old(rtable.table), rp.dst)]
    {
      hide Rtable.Right;
      rtable.Add(rp.dst);
      var rt := rtable.Get(rp.dst);
      var p := Path(rp.from, rp.hop + 1, now + rp.lifetime, rp.firstHop);
      taken := true;
      if rt.seqno < rp.dstSeq {
        rtable.Renew(rp.dst, rp.dstSeq, p);
      } else if rt.seqno == rp.dstSeq && rt.adv > rp.hop {
        taken := OfferForward(rp.dst, p);
      } else {
        taken := false;
      }
    }

    method OfferForward(d: Addr, p: Path) returns (taken: bool)
      requires Valid() && d in rtable.table
      modifies rtable, rtable.repr
      ensures Valid() && fresh(rtable.repr - old(rtable.repr))
      ensures var e := old(rtable.table)[d];
              var t := SameForward(e, p, limits);
              taken == t.Taken? && rtable.table == old(rtable.table)[d := if taken then t.entry else e]
    {
      hide Rtable.Right;
      taken := false;
      var rt := rtable.Get(d);
      var known := rt.Knows(Same(p.nexthop, p.lasthop));
      var disjoint := rt.NewDisjointPath(p.nexthop, p.lasthop);
      PutBack(rtable.table, d);
      if known {
        taken := rtable.Prolong(d, p.nexthop, p.lasthop, p.expire);
      } else if disjoint {
        taken := InsertForward(d, p);
      }
    }

    method InsertForward(d: Addr, p: Path) returns (taken: bool)
      requires Valid() && d in rtable.table
      modifies rtable, rtable.repr
      ensures Valid() && fresh(rtable.repr - old(rtable.repr))
      ensures var e := old(rtable.table)[d];
              && taken == (|e.paths| < limits.maxPaths && p.hopcount - MinHop(e.paths) <= limits.maxDiff)
              && rtable.table == old(rtable.table)[d := if taken then e.(paths := e.paths + [p]) else e]
    {
      hide Rtable.Right;
      var rt := rtable.Get(d);
      var min := rt.GetMinHopcount();
      PutBack(rtable.table, d);
      taken := rt.numPaths < limits.maxPaths && p.hopcount - min <= limits.maxDiff;
      if taken {
        rtable.Insert(d, p);
      }
    }

    method OnReply(rp: Msg, now: real) returns (out: seq<Msg>)
      requires Valid() && rp.Rrep?
      modifies this, rtable, rtable.repr
      ensures Valid() && fresh(rtable.repr - old(rtable.repr))
      ensures (State(), out) == RecvReply(old(State()), rp, now)
    {
      hide Rtable.Right;
      out := [];
      if rp.dst == index {
        return;
      }
      var taken := UpdateForward(rp, now);
      if taken {
        out := PassBack(rp, now);
      }
    }

    /** Whether a reply that was taken can go on to the node that asked. */
    method CanGoOn(rp: Msg) returns (ready: bool)
      requires Valid() && rp.Rrep? && rp.dst in rtable.table
      ensures ready == CanRelay(State(), rp)
    {
      hide Rtable.Right;
      ready := false;
      var id := (rp.ipdst, rp.bid);
      var known := rtable.Knows(rp.ipdst);
      if rp.ipdst != index && known && id in bcache && !bcache[id] {
        var rt0 := rtable.Get(rp.ipdst);
        var noBack := rt0.PathEmpty();
        var rt := rtable.Get(rp.dst);
        var noThere := rt.PathEmpty();
        ready := rt0.flag == Up && !noBack && !noThere;
      }
    }

    method PassBack(rp: Msg, now: real) returns (out: seq<Msg>)
      requires Valid() && rp.Rrep? && rp.dst in rtable.table
      modifies `bcache, rtable, rtable.repr
      ensures Valid() && rtable.repr == old(rtable.repr)
      ensures (State(), out) == if CanRelay(old(State()), rp) then Relay(old(State()), rp, now) else (old(State()), [])
    {
      hide Rtable.Right;
      out := [];
      var ready := CanGoOn(rp);
      if ready {
        out := SendBack(rp, now);
      }
    }

    method SendBack(rp: Msg, now: real) returns (out: seq<Msg>)
      requires Valid() && rp.Rrep? && rp.dst in rtable.table && CanRelay(State(), rp)
      modifies `bcache, rtable, rtable.repr
      ensures Valid() && rtable.repr == old(rtable.repr)
      ensures (State(), out) == Relay(old(State()), rp, now)
    {
      hide Rtable.Right;
      bcache := bcache[(rp.ipdst, rp.bid) := true];
      var hops, first := rtable.Announce(rp.dst, true);
      var back := rtable.UseFirst(rp.ipdst, now + ACTIVE_ROUTE_TIMEOUT);
      out := Forward(Rrep(index, back.nexthop, rp.ipdst, U8(hops), rp.dst, rp.dstSeq, rp.bid, first.lasthop,
                          rp.lifetime, rp.ttl - 1));
    }

    method OnHello(m: Msg, now: real)
      requires Valid() && m.Hello?
      modifies this, rtable, rtable.repr
      ensures Valid() && fresh(rtable.repr - old(rtable.repr))
      ensures State() == RecvHello(old(State()), m, now)
    {
      nbrs := nbrs + {m.from};
      var out := OnReply(Rrep(m.from, index, index, 0, m.from, m.seqno, 0, index, HELLO_LIFE, 0), now);
    }

    /** The end of a route: its last number, whom to tell, and rt_down. */
    method TakeDown(d: Addr, seqno: nat, error: bool)
      requires Valid() && d in rtable.table
      modifies rtable, rtable.repr
      ensures Valid() && rtable.repr == old(rtable.repr)
      ensures rtable.table == old(rtable.table)[d := RtDown(old(rtable.table)[d].(seqno := seqno, error := error))]
    {
      var rt := rtable.Get(d);
      ghost var t, e := rtable.table, rtable.table[d];
      rtable.Number(d, seqno, rt.highest);
      rtable.Mark(d, error);
      PutTwice(t, d, e.(seqno := seqno), e.(seqno := seqno, error := error));
      rtable.GoDown(d);
      PutTwice(t, d, e.(seqno := seqno, error := error), rtable.table[d]);
    }

    /** path_delete for a neighbour, with the largest number heard; tells whether no path is left. */
    method LosePath(d: Addr, id: Addr, highest: nat) returns (empty: bool)
      requires Valid() && d in rtable.table
      modifies rtable, rtable.repr
      ensures Valid() && rtable.repr == old(rtable.repr)
      ensures var e := old(rtable.table)[d];
              var e' := e.(paths := Delete(e.paths, NextIs(id)), highest := highest);
              rtable.table == old(rtable.table)[d := e'] && empty == (e'.paths == [])
    {
      hide Rtable.Right;
      rtable.Delete(d, id);
      ghost var e1 := rtable.table[d];
      var rt := rtable.Get(d);
      rtable.Number(d, rt.seqno, highest);
      PutTwice(old(rtable.table), d, e1, rtable.table[d]);
      rt := rtable.Get(d);
      empty := rt.PathEmpty();
    }

    /** One destination of an error; tells what to report. */
    method TakeError(d: Addr, er: Msg) returns (report: bool)
      requires Valid() && er.Rerr? && d in er.unreachable && d in rtable.table
      modifies rtable, rtable.repr
      ensures Valid() && rtable.repr == old(rtable.repr)
      ensures rtable.table == old(rtable.table)[d := AfterError(old(rtable.table), d, er)]
      ensures report == ErrorSpreads(old(rtable.table), d, er)
    {
      hide Rtable.Right;
      report := false;
      var rt := rtable.Get(d);
      var uses := rt.Knows(NextIs(er.from));
      if rt.flag == Up && uses && rt.seqno <= er.unreachable[d] {
        var heard, error := Max(rt.highest, er.unreachable[d]), rt.error;
        var empty := LosePath(d, er.from, heard);
        if empty {
          report := error;
          ghost var e := rtable.table[d];
          TakeDown(d, heard, false);
          PutTwice(old(rtable.table), d, e, rtable.table[d]);
        }
      } else {
        PutBack(rtable.table, d);
      }
    }

    /** The same with what there is to report so far. */
    method TakeNext(d: Addr, er: Msg, soFar: map<Addr, nat>) returns (down: map<Addr, nat>)
      requires Valid() && er.Rerr? && d in er.unreachable
      modifies rtable, rtable.repr
      ensures Valid() && rtable.repr == old(rtable.repr)
      ensures var t := old(rtable.table);
              && rtable.table == (if d in t then t[d := AfterError(t, d, er)] else t)
              && down ==
                 if ErrorSpreads(t, d, er) && d in rtable.table then soFar[d := rtable.table[d].seqno] else soFar
    {
      hide Rtable.Right;
      down := soFar;
      var known := rtable.Knows(d);
      if known {
        var report := TakeError(d, er);
        if report {
          var rt := rtable.Get(d);
          down := down[d := rt.seqno];
        }
      }
    }

    method OnError(er: Msg) returns (out: seq<Msg>)
      requires Valid() && er.Rerr?
      modifies rtable, rtable.repr
      ensures Valid() && rtable.repr == old(rtable.repr) && (State(), out) == RecvError(old(State()), er)
    {
      ghost var t := rtable.table;
      var down: map<Addr, nat> := map[];
      var todo := er.unreachable.Keys;
      while todo != {}
        invariant Valid() && rtable.repr == old(rtable.repr)
        invariant todo <= er.unreachable.Keys && ErrorsTaken(t, er, todo, rtable.table, down)
        decreases todo
      {
        var d :| d in todo;
        ghost var t1, down1 := rtable.table, down;
        down := TakeNext(d, er, down);
        ErrorTaken(t, er, todo, t1, down1, d, rtable.table, down);
        todo := todo - {d};
      }
      ErrorsCollected(old(State()), er, rtable.table, down);
      out := if down == map[] then [] else [Rerr(index, down)];
    }

    method BreakEntry(d: Addr, id: Addr) returns (report: bool)
      requires Valid() && d in rtable.table
      modifies rtable, rtable.repr
      ensures Valid() && rtable.repr == old(rtable.repr)
      ensures rtable.table == old(rtable.table)[d := AfterLinkFailure(old(rtable.table)[d], id)]
      ensures report == FailureSpreads(old(rtable.table)[d], id)
    {
      hide Rtable.Right;
      report := false;
      var rt := rtable.Get(d);
      var uses := rt.Knows(NextIs(id));
      if rt.flag == Up && uses {
        var seqno, highest, error := rt.seqno, rt.highest, rt.error;
        var empty := LosePath(d, id, highest);
        if empty {
          report := error;
          ghost var e := rtable.table[d];
          TakeDown(d, Max(seqno + 1, highest), false);
          PutTwice(old(rtable.table), d, e, rtable.table[d]);
        }
      } else {
        PutBack(rtable.table, d);
      }
    }

    method BreakNext(d: Addr, id: Addr, soFar: map<Addr, nat>) returns (down: map<Addr, nat>)
      requires Valid() && d in rtable.table
      modifies rtable, rtable.repr
      ensures Valid() && rtable.repr == old(rtable.repr)
      ensures var t := old(rtable.table);
              && rtable.table == t[d := AfterLinkFailure(t[d], id)]
              && down == if FailureSpreads(t[d], id) then soFar[d := rtable.table[d].seqno] else soFar
    {
      down := soFar;
      var report := BreakEntry(d, id);
      if report {
        var rt := rtable.Get(d);
        down := down[d := rt.seqno];
      }
    }

    method HandleLinkFailure(id: Addr) returns (out: seq<Msg>)
      requires Valid()
      modifies rtable, rtable.repr
      ensures Valid() && rtable.repr == old(rtable.repr) && (State(), out) == LinkFailure(old(State()), id)
    {
      ghost var t := rtable.table;
      var down: map<Addr, nat> := map[];
      var todo := rtable.Destinations();
      while todo != {}
        invariant Valid() && rtable.repr == old(rtable.repr)
        invariant todo <= t.Keys && BreaksMade(t, id, todo, rtable.table, down)
        decreases todo
      {
        var d :| d in todo;
        ghost var t1, down1 := rtable.table, down;
        down := BreakNext(d, id, down);
        BreakMade(t, id, todo, t1, down1, d, rtable.table, down);
        todo := todo - {d};
      }
      BreaksCollected(old(State()), id, rtable.table, down);
      out := if down == map[] then [] else [Rerr(index, down)];
    }

    method NbDelete(id: Addr) returns (out: seq<Msg>)
      requires Valid()
      modifies this, rtable, rtable.repr
      ensures Valid() && rtable.repr == old(rtable.repr) && (State(), out) == LoseNeighbour(old(State()), id)
    {
      seqno := seqno + 2;
      nbrs := nbrs - {id};
      out := HandleLinkFailure(id);
    }

    /** path_purge; tells whether no path is left. */
    method LoseExpired(d: Addr, now: real) returns (empty: bool)
      requires Valid() && d in rtable.table
      modifies rtable, rtable.repr
      ensures Valid() && rtable.repr == old(rtable.repr)
      ensures var e := old(rtable.table)[d];
              var e' := e.(paths := Unexpired(e.paths, now));
              rtable.table == old(rtable.table)[d := e'] && empty == (e'.paths == [])
    {
      rtable.Purge(d, now);
      var rt := rtable.Get(d);
      empty := rt.PathEmpty();
    }

    method ExpireEntry(d: Addr, now: real)
      requires Valid() && d in rtable.table
      modifies rtable, rtable.repr
      ensures Valid() && rtable.repr == old(rtable.repr)
      ensures rtable.table == old(rtable.table)[d := AfterExpiry(old(rtable.table)[d], now)]
    {
      hide Rtable.Right;
      var rt := rtable.Get(d);
      if rt.flag == Up && 0.0 < now {
        var n, error := Max(rt.seqno + 1, rt.highest), rt.error;
        var empty := LoseExpired(d, now);
        if empty {
          ghost var e := rtable.table[d];
          if n % 2 == 0 {
            n := n + 1;
          }
          TakeDown(d, n, error);
          PutTwice(old(rtable.table), d, e, rtable.table[d]);
        }
      } else {
        PutBack(rtable.table, d);
      }
    }

    method RtPurge(now: real)
      requires Valid()
      modifies rtable, rtable.repr
      ensures Valid() && rtable.repr == old(rtable.repr) && State() == PurgeRoutes(old(State()), now)
    {
      ghost var t := rtable.table;
      var todo := rtable.Destinations();
      while todo != {}
        invariant Valid() && rtable.repr == old(rtable.repr)
        invariant todo <= t.Keys && ExpiriesMade(t, now, todo, rtable.table)
        decreases todo
      {
        var d :| d in todo;
        ghost var t1 := rtable.table;
        ExpireEntry(d, now);
        ExpiryMade(t, now, todo, t1, d, rtable.table);
        todo := todo - {d};
      }
      ExpiriesCollected(old(State()), now, rtable.table);
    }

    /** rt_resolve for a packet of this node or another one. */
    method RtResolve(dst: Addr, own: bool, quiet: bool, ttl: nat, now: real) returns (out: seq<Msg>)
      requires Valid()
      modifies this, rtable, rtable.repr
      ensures Valid() && fresh(rtable.repr - old(rtable.repr))
      ensures (State(), out) == Resolve(old(State()), dst, own, quiet, ttl, now)
    {
      hide Rtable.Right;
      out := [];
      rtable.Add(dst);
      var rt := rtable.Get(dst);
      if rt.flag == Up {
        var path := rt.PathFind();
        if path != null {
          var marked := rt.error || !own;
          ghost var e := rtable.table[dst];
          path := rtable.UseFirst(dst, now + ACTIVE_ROUTE_TIMEOUT);
          PutTwice(old(rtable.table), dst, e, Used(e, now));
          rtable.Mark(dst, marked);
          PutTwice(old(rtable.table), dst, Used(e, now), Used(e, now).(error := marked));
        }
      } else if own {
        if !quiet {
          out := Request(dst, ttl);
        }
      } else {
        out := [Rerr(index, map[dst := rt.seqno])];
      }
    }

    method Request(dst: Addr, ttl: nat) returns (out: seq<Msg>)
      requires Valid() && dst in rtable.table
      modifies `seqno, `bid
      ensures Valid() && (State(), out) == SendRequest(old(State()), dst, ttl)
    {
      hide Rtable.Right;
      out := [];
      var rt := rtable.Get(dst);
      if rt.flag == Up {
        return;
      }
      var id := bid;
      bid := bid + 1;
      seqno := seqno + 2;
      out := [Rreq(index, 0, id, dst, rt.seqno, index, seqno, 0, ttl)];
    }
  }
}
