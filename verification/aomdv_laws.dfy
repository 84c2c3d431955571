// What an AOMDV node does with each event, told by what it knew before, what it heard and what it knows afterwards.
module AomdvLaws {
  import opened Common
  import opened AomdvPaths
  import opened AomdvRtable
  import opened AomdvAgent
  import opened AomdvNetwork
  import opened AomdvLegal
  import opened AomdvRuns

  // ----- path lists -----

  predicate SamePath(p: Path, q: Path) {
    p.nexthop == q.nexthop && p.lasthop == q.lasthop
  }

  predicate HasSame(ps: seq<Path>, p: Path) {
    exists q | q in ps :: SamePath(p, q)
  }

  /** No path of the list has the next hop or the last hop of p. */
  predicate Apart(ps: seq<Path>, p: Path) {
    forall q | q in ps :: q.nexthop != p.nexthop && q.lasthop != p.lasthop
  }

  /** Not longer by more than the limit than the shortest there is. */
  predicate Comparable(ps: seq<Path>, p: Path, l: Limits) {
    p.hopcount - MinHop(ps) <= l.maxDiff
  }

  function Later(a: real, b: real): real {
    if a > b then a else b
  }

  /** The path that was offered again lives on, the others are as they were. */
  predicate Prolonged(ps: seq<Path>, ps': seq<Path>, p: Path) {
    |ps'| == |ps| && forall i | 0 <= i < |ps| ::
      ps'[i] == if SamePath(p, ps[i]) then ps[i].(expire := Later(ps[i].expire, p.expire)) else ps[i]
  }

  predicate FitsIn(ps: seq<Path>, p: Path, l: Limits) {
    Apart(ps, p) && |ps| < l.maxPaths && Comparable(ps, p, l)
  }

  /** One path over the neighbour is gone. */
  predicate Lost(ps: seq<Path>, ps': seq<Path>, nbr: Addr) {
    exists k :: 0 <= k < |ps| && ps[k].nexthop == nbr && ps' == ps[..k] + ps[k + 1..]
  }

  predicate Leads(ps: seq<Path>, nbr: Addr) {
    exists p | p in ps :: p.nexthop == nbr
  }

  // ----- offers -----

  /** The offer is under the number the entry has, and shorter than what the entry advertises. */
  predicate Open(e: Entry, seqno: nat, hops: nat) {
    e.seqno == seqno && hops < e.adv
  }

  /** The paths afterwards: all new under a newer number; under the same one the offered path lives on or comes in. */
  predicate PathsTake(e: Entry, seqno: nat, hops: nat, p: Path, l: Limits, ps': seq<Path>) {
    if e.seqno < seqno then ps' == [p]
    else if Open(e, seqno, hops) && HasSame(e.paths, p) then Prolonged(e.paths, ps', p)
    else if Open(e, seqno, hops) && FitsIn(e.paths, p, l) then ps' == e.paths + [p]
    else ps' == e.paths
  }

  /** A path stands for the offer afterwards. */
  predicate Stands(e: Entry, seqno: nat, hops: nat, p: Path, l: Limits) {
    e.seqno < seqno || (Open(e, seqno, hops) && (HasSame(e.paths, p) || FitsIn(e.paths, p, l)))
  }

  /** What an entry says after an offer, but for a first advertisement and the error mark. */
  predicate TakesIn(e: Entry, seqno: nat, hops: nat, p: Path, l: Limits, e': Entry) {
    && PathsTake(e, seqno, hops, p, l, e'.paths)
    && e'.seqno == Max(e.seqno, seqno) && e'.highest == e.highest
    && e'.flag == (if e.seqno < seqno then Up else e.flag)
    && AdvSet(if e.seqno < seqno then INFINITY else e.adv, e')
  }

  /** An advertisement stays, or is fixed to the longest path there is. */
  predicate AdvSet(adv: nat, e': Entry) {
    e'.adv == adv || (adv == INFINITY && e'.adv == MaxHop(e'.paths))
  }

  lemma FirstSame(ps: seq<Path>, p: Path)
    ensures Has(ps, Same(p.nexthop, p.lasthop)) <==> HasSame(ps, p)
    ensures !Has(ps, Meets(p.nexthop, p.lasthop)) <==> Apart(ps, p)
  {
    var k := First(ps, Same(p.nexthop, p.lasthop));
    if k < |ps| {
      assert ps[k] in ps && SamePath(p, ps[k]);
    }
    if q :| q in ps && SamePath(p, q) {
      var i :| 0 <= i < |ps| && ps[i] == q;
      assert Same(p.nexthop, p.lasthop).Matches(ps[i]);
    }
    var m := First(ps, Meets(p.nexthop, p.lasthop));
    if m < |ps| {
      assert ps[m] in ps;
    }
  }

  lemma ExtendProlongs(ps: seq<Path>, p: Path)
    requires Disjoint(ps) && HasSame(ps, p)
    ensures Prolonged(ps, Extend(ps, Same(p.nexthop, p.lasthop), p.expire), p)
  {
    FirstSame(ps, p);
    var k := First(ps, Same(p.nexthop, p.lasthop));
    forall i | 0 <= i < |ps| && i != k ensures !SamePath(p, ps[i]) {
      assert ps[i].nexthop != ps[k].nexthop;
    }
  }

  lemma DeleteLoses(ps: seq<Path>, nbr: Addr)
    ensures Has(ps, NextIs(nbr)) <==> Leads(ps, nbr)
    ensures Leads(ps, nbr) ==> Lost(ps, Delete(ps, NextIs(nbr)), nbr)
  {
    var k := First(ps, NextIs(nbr));
    if k < |ps| {
      assert ps[k] in ps;
    }
    if p :| p in ps && p.nexthop == nbr {
      var i :| 0 <= i < |ps| && ps[i] == p;
      assert NextIs(nbr).Matches(ps[i]);
    }
  }

  // ----- requests -----

  /** The path a request offers: the first node on it is its own last hop. */
  function OfferedBy(s: Node, rq: Msg, now: real): Path
    requires rq.Rreq?
  {
    Path(rq.from, rq.hop + 1, now + REV_ROUTE_LIFE, if rq.hop == 0 then s.index else rq.firstHop)
  }

  /** The list has a path with the last hop of p that is no shorter. */
  predicate Covers(ps: seq<Path>, p: Path) {
    exists q | q in ps :: q.lasthop == p.lasthop && p.hopcount <= q.hopcount
  }

  /** The request is dealt with: it is newer, or offers a path that is there or that might come in, or is for somebody
      else or covered. */
  predicate Stays(s: Node, rq: Msg, e: Entry, p: Path)
    requires rq.Rreq?
  {
    || e.seqno < rq.srcSeq
    || (Open(e, rq.srcSeq, rq.hop) &&
          if HasSame(e.paths, p) then true
          else if Apart(e.paths, p) then Comparable(e.paths, p, s.limits)
          else rq.dst != s.index || Covers(e.paths, p))
  }

  lemma NotLonger(ps: seq<Path>, p: Path)
    requires Disjoint(ps)
    ensures !Longer(ps, p) <==> Covers(ps, p)
  {
    var k := First(ps, LastIs(p.lasthop));
    if k < |ps| {
      assert ps[k] in ps;
    }
    if q :| q in ps && q.lasthop == p.lasthop && p.hopcount <= q.hopcount {
      var i :| 0 <= i < |ps| && ps[i] == q;
      assert LastIs(p.lasthop).Matches(ps[i]);
      assert i == k;
    }
  }

  lemma ReverseTakes(s: Node, rq: Msg, now: real)
    requires rq.Rreq? && NodeOk(s)
    ensures var e, p, rev := Lookup(s.rtable, rq.src), OfferedBy(s, rq, now), ReverseRoute(s, rq, now);
            && TakesIn(e, rq.srcSeq, rq.hop, p, s.limits, rev.entry) && rev.entry.error == e.error
            && rev.entry.adv == (if e.seqno < rq.srcSeq then INFINITY else e.adv)
            && (rev.dropped <==> !Stays(s, rq, e, p))
            && (!rev.dropped ==> (rev.path <==> Stands(e, rq.srcSeq, rq.hop, p, s.limits)))
  {
    var e, p := Lookup(s.rtable, rq.src), OfferedBy(s, rq, now);
    KnownOk(s, rq.src);
    FirstSame(e.paths, p);
    NotLonger(e.paths, p);
    if HasSame(e.paths, p) {
      ExtendProlongs(e.paths, p);
      ApartOrSame(e.paths, p);
    }
  }

  lemma ApartOrSame(ps: seq<Path>, p: Path)
    requires HasSame(ps, p)
    ensures !Apart(ps, p)
  {
  }

  /** The number a destination answers with: its own unless that is too old, and even. */
  predicate AnswerNumber(own: nat, asked: nat, n: nat) {
    n % 2 == 0 && if own >= asked then own <= n <= own + 1 else asked < n <= asked + 2
  }

  predicate CanTell(t: Table, d: Addr, asked: nat) {
    d in t && t[d].flag == Up && t[d].seqno >= asked
  }

  predicate WasAnswered(s: Node, id: (Addr, nat)) {
    id in s.bcache && s.bcache[id]
  }

  /** A route is announced by its advertised hop count, now fixed, and its first path. */
  predicate Announces(e': Entry) {
    e'.adv != INFINITY && e'.paths != []
  }

  /** The entry says what it said, but for a first advertisement and the error mark. */
  predicate Told(e: Entry, e': Entry) {
    e' == e.(adv := e'.adv, error := e'.error) && AdvSet(e.adv, e')
  }

  /** The node answers from its route, once for each request, if it has a path back for it. */
  predicate AnswersFor(s: Node, rq: Msg, now: real, t': Table)
    requires rq.Rreq?
  {
    var e, p := Lookup(s.rtable, rq.src), OfferedBy(s, rq, now);
    && Stays(s, rq, e, p) && rq.dst != s.index && CanTell(t', rq.dst, rq.dstSeq)
    && Stands(e, rq.srcSeq, rq.hop, p, s.limits) && !WasAnswered(s, (rq.src, rq.bid))
  }

  predicate PassesOn(s: Node, rq: Msg, now: real, t': Table)
    requires rq.Rreq?
  {
    && Stays(s, rq, Lookup(s.rtable, rq.src), OfferedBy(s, rq, now)) && rq.dst != s.index
    && !CanTell(t', rq.dst, rq.dstSeq) && (rq.src, rq.bid) !in s.bcache
  }

  /** What is in the table afterwards. */
  predicate Hears(s: Node, rq: Msg, now: real, s': Node)
    requires rq.Rreq?
  {
    var e, p, t, t' := Lookup(s.rtable, rq.src), OfferedBy(s, rq, now), s.rtable, s'.rtable;
    && t'.Keys == t.Keys + {rq.src}
    && TakesIn(e, rq.srcSeq, rq.hop, p, s.limits, t'[rq.src])
    && (forall x | x in t && x != rq.src :: Told(t[x], t'[x]))
    && (forall x | x in t' ::
          && (t'[x].error <==> Lookup(t, x).error || (x == rq.dst && AnswersFor(s, rq, now, t')))
          && (t'[x].adv != Lookup(t, x).adv && x != rq.src ==> x == rq.dst && AnswersFor(s, rq, now, t')))
  }

  /** What is remembered of requests. */
  predicate Remembers(s: Node, rq: Msg, now: real, s': Node)
    requires rq.Rreq?
  {
    var id := (rq.src, rq.bid);
    && s'.bcache.Keys == s.bcache.Keys + {id}
    && (forall x | x in s.bcache && x != id :: s'.bcache[x] == s.bcache[x])
    && (s'.bcache[id] <==> WasAnswered(s, id) || AnswersFor(s, rq, now, s'.rtable))
  }

  predicate Responds(s: Node, rq: Msg, now: real, s': Node, out: seq<Msg>)
    requires rq.Rreq? && rq.src in s'.rtable
  {
    var stays := Stays(s, rq, Lookup(s.rtable, rq.src), OfferedBy(s, rq, now));
    var t' := s'.rtable;
    if stays && rq.dst == s.index then
      && AnswerNumber(s.seqno, rq.dstSeq, s'.seqno)
      && out == [Rrep(s.index, rq.from, rq.src, 0, s.index, s'.seqno, rq.bid, rq.from, MY_ROUTE_TIMEOUT,
                      NETWORK_DIAMETER)]
    else
      && s'.seqno == s.seqno
      && if AnswersFor(s, rq, now, t') then
           var e := t'[rq.dst];
           && Announces(e)
           && out == [Rrep(s.index, rq.from, rq.src, U8(e.adv), rq.dst, e.seqno, rq.bid, e.paths[0].lasthop,
                           e.paths[0].expire - now, NETWORK_DIAMETER)]
         else if PassesOn(s, rq, now, t') then
           var e := t'[rq.src];
           && Announces(e)
           && out == if rq.ttl == 1 then []
                     else [Rreq(s.index, U8(e.adv), rq.bid, rq.dst, Max(Lookup(t', rq.dst).seqno, rq.dstSeq), rq.src,
                                rq.srcSeq, e.paths[0].lasthop, rq.ttl - 1)]
         else out == []
  }

  predicate SameRest(s: Node, s': Node) {
    s'.index == s.index && s'.limits == s.limits && s'.bid == s.bid && s'.nbrs == s.nbrs
  }

  predicate DoesRequest(s: Node, rq: Msg, now: real, s': Node, out: seq<Msg>)
    requires rq.Rreq?
  {
    if rq.src == s.index then s' == s && out == []
    else SameRest(s, s') && Hears(s, rq, now, s') && Remembers(s, rq, now, s') && Responds(s, rq, now, s', out)
  }

  /** The node once it has heard the request: its entries are in order. */
  lemma HeardOk(s: Node, rq: Msg, now: real)
    requires rq.Rreq? && NodeOk(s) && MsgOk(rq) && rq.src != s.index
    ensures var t := Heard(s, rq, now).rtable;
            && (forall x | x in t :: (t[x].flag == Up ==> t[x].paths != []) && MaxHop(t[x].paths) != INFINITY)
            && (!ReverseRoute(s, rq, now).dropped ==> t[rq.src].flag == Up)
  {
    var t := Heard(s, rq, now).rtable;
    ReverseLegal(s, rq, now);
    SameTableLegal(s, {rq});
    PutLegal(s, s.rtable, rq.src, ReverseRoute(s, rq, now).entry, {rq});
    forall x | x in t ensures (t[x].flag == Up ==> t[x].paths != []) && MaxHop(t[x].paths) != INFINITY {
      TableOk(s, t, {rq}, x);
      LongestFits(t[x].paths);
    }
  }

  lemma LongestFits(ps: seq<Path>)
    requires forall p | p in ps :: p.hopcount <= LONGEST
    ensures MaxHop(ps) != INFINITY
  {
    if Longest(ps) > 0 {
      var p :| p in ps && p.hopcount == Longest(ps);
    }
  }

  /** The table after the response, from that when the request was heard. */
  predicate Responded(s: Node, rq: Msg, now: real, t: Table, t': Table)
    requires rq.Rreq? && rq.src in t
  {
    if AnswersFor(s, rq, now, t) then t' == t[rq.dst := Announced(t[rq.dst], true)]
    else if PassesOn(s, rq, now, t) then t' == t[rq.src := Advertised(t[rq.src])]
    else t' == t
  }

  lemma RequestResponded(s: Node, rq: Msg, now: real)
    requires rq.Rreq? && NodeOk(s) && MsgOk(rq) && rq.src != s.index
    ensures Responded(s, rq, now, Heard(s, rq, now).rtable, RecvRequest(s, rq, now).0.rtable)
  {
    hide ReverseRoute, TakesIn, Stays, Stands, MaxHop, NodeOk, OfferedBy;
    ReverseTakes(s, rq, now);
    HeardOk(s, rq, now);
  }

  lemma ToldTakes(e: Entry, seqno: nat, hops: nat, p: Path, l: Limits, x: Entry, x': Entry)
    requires TakesIn(e, seqno, hops, p, l, x) && x.adv == (if e.seqno < seqno then INFINITY else e.adv) && Told(x, x')
    ensures TakesIn(e, seqno, hops, p, l, x')
  {
  }

  lemma AdvertisedTold(e: Entry, marked: bool)
    ensures Told(e, Announced(e, marked)) && Announced(e, marked).error == (e.error || marked)
    ensures Told(e, Advertised(e)) && Advertised(e).error == e.error
    ensures MaxHop(e.paths) != INFINITY ==> Announced(e, marked).adv != INFINITY
  {
  }

  lemma RequestHears(s: Node, rq: Msg, now: real)
    requires rq.Rreq? && NodeOk(s) && MsgOk(rq) && rq.src != s.index
    ensures SameRest(s, RecvRequest(s, rq, now).0) && Hears(s, rq, now, RecvRequest(s, rq, now).0)
  {
    RequestResponded(s, rq, now);
    ReverseTakes(s, rq, now);
    RespondedHears(s, rq, now, RecvRequest(s, rq, now).0);
  }

  lemma RespondedHears(s: Node, rq: Msg, now: real, s': Node)
    requires rq.Rreq?
    requires var e, p, rev := Lookup(s.rtable, rq.src), OfferedBy(s, rq, now), ReverseRoute(s, rq, now);
             && TakesIn(e, rq.srcSeq, rq.hop, p, s.limits, rev.entry) && rev.entry.error == e.error
             && rev.entry.adv == (if e.seqno < rq.srcSeq then INFINITY else e.adv)
    requires Responded(s, rq, now, s.rtable[rq.src := ReverseRoute(s, rq, now).entry], s'.rtable)
    ensures Hears(s, rq, now, s')
  {
    hide ReverseRoute, Stays, Stands, MaxHop, Announced, Advertised;
    var e, p, x := Lookup(s.rtable, rq.src), OfferedBy(s, rq, now), ReverseRoute(s, rq, now).entry;
    var t := s.rtable[rq.src := x];
    AdvertisedTold(x, true);
    AdvertisedTold(x, false);
    if rq.dst in t {
      AdvertisedTold(t[rq.dst], true);
    }
    assert AnswersFor(s, rq, now, s'.rtable) <==> AnswersFor(s, rq, now, t);
    assert Told(x, s'.rtable[rq.src]);
    ToldTakes(e, rq.srcSeq, rq.hop, p, s.limits, x, s'.rtable[rq.src]);
  }

  lemma RequestRemembers(s: Node, rq: Msg, now: real)
    requires rq.Rreq? && NodeOk(s) && MsgOk(rq) && rq.src != s.index
    ensures Remembers(s, rq, now, RecvRequest(s, rq, now).0)
  {
    hide ReverseRoute, TakesIn, Stays, Stands, MaxHop, NodeOk, OfferedBy;
    RequestResponded(s, rq, now);
    ReverseTakes(s, rq, now);
    HeardOk(s, rq, now);
  }

  lemma RequestResponds(s: Node, rq: Msg, now: real)
    requires rq.Rreq? && NodeOk(s) && MsgOk(rq) && rq.src != s.index
    ensures Responds(s, rq, now, RecvRequest(s, rq, now).0, RecvRequest(s, rq, now).1)
  {
    hide ReverseRoute, TakesIn, Stays, Stands, MaxHop, NodeOk, OfferedBy;
    RequestResponded(s, rq, now);
    ReverseTakes(s, rq, now);
    HeardOk(s, rq, now);
  }

  lemma RequestLaw(s: Node, rq: Msg, now: real)
    requires rq.Rreq? && NodeOk(s) && MsgOk(rq)
    ensures DoesRequest(s, rq, now, RecvRequest(s, rq, now).0, RecvRequest(s, rq, now).1)
  {
    hide Hears, Remembers, Responds;
    if rq.src != s.index {
      RequestHears(s, rq, now);
      RequestRemembers(s, rq, now);
      RequestResponds(s, rq, now);
    }
  }

  // ----- replies -----

  function RepliedBy(rp: Msg, now: real): Path
    requires rp.Rrep?
  {
    Path(rp.from, rp.hop + 1, now + rp.lifetime, rp.firstHop)
  }

  /** The reply goes on: it was taken, is for somebody else the node has a route to, and the request it answers is known
      and not answered yet. */
  predicate GoesOn(s: Node, rp: Msg, now: real, t': Table)
    requires rp.Rrep?
  {
    && Stands(Lookup(s.rtable, rp.dst), rp.dstSeq, rp.hop, RepliedBy(rp, now), s.limits)
    && rp.ipdst != s.index && rp.ipdst in t' && t'[rp.ipdst].flag == Up
    && (rp.ipdst, rp.bid) in s.bcache && !s.bcache[(rp.ipdst, rp.bid)]
  }

  /** Only the lifetime of the first path has changed, besides what Told allows. */
  predicate FirstUsed(e: Entry, e': Entry, now: real) {
    && e.paths != [] && |e'.paths| == |e.paths|
    && e'.paths == e.paths[0 := e.paths[0].(expire := now + ACTIVE_ROUTE_TIMEOUT)]
    && e' == e.(adv := e'.adv, error := e'.error, paths := e'.paths)
  }

  /** What is in the table afterwards; for a reply about the very node it is for, only the numbers. */
  predicate Learns(s: Node, rp: Msg, now: real, s': Node)
    requires rp.Rrep?
  {
    var e, t, t' := Lookup(s.rtable, rp.dst), s.rtable, s'.rtable;
    var goesOn := GoesOn(s, rp, now, t');
    && t'.Keys == t.Keys + {rp.dst}
    && t'[rp.dst].seqno == Max(e.seqno, rp.dstSeq)
    && (rp.dst != rp.ipdst ==> TakesIn(e, rp.dstSeq, rp.hop, RepliedBy(rp, now), s.limits, t'[rp.dst]))
    && (forall x | x in t && x != rp.dst ::
          if goesOn && x == rp.ipdst then FirstUsed(t[x], t'[x], now) && t'[x].adv == t[x].adv else t'[x] == t[x])
    && (forall x | x in t' :: t'[x].error <==> Lookup(t, x).error || (goesOn && x == rp.dst))
  }

  /** What is sent: the reply, one hop longer than the longest path when first announced, to the first path there. */
  predicate Relays(s: Node, rp: Msg, now: real, s': Node, out: seq<Msg>)
    requires rp.Rrep? && rp.dst in s'.rtable
  {
    var t' := s'.rtable;
    if GoesOn(s, rp, now, t') then
      && s'.bcache == s.bcache[(rp.ipdst, rp.bid) := true]
      && Announces(t'[rp.dst]) && t'[rp.ipdst].paths != []
      && out == if rp.ttl == 1 then []
                else [Rrep(s.index, t'[rp.ipdst].paths[0].nexthop, rp.ipdst, U8(t'[rp.dst].adv), rp.dst, rp.dstSeq,
                           rp.bid, t'[rp.dst].paths[0].lasthop, rp.lifetime, rp.ttl - 1)]
    else s'.bcache == s.bcache && out == []
  }

  predicate DoesReply(s: Node, rp: Msg, now: real, s': Node, out: seq<Msg>)
    requires rp.Rrep?
  {
    if rp.dst == s.index then s' == s && out == []
    else SameRest(s, s') && s'.seqno == s.seqno && Learns(s, rp, now, s') && Relays(s, rp, now, s', out)
  }

  /** The entry after the reply, whether or not a path stands for it. */
  function ReplyEntry(s: Node, rp: Msg, now: real): Entry
    requires rp.Rrep?
  {
    match ForwardRoute(s, rp, now)
    case Refused => Lookup(s.rtable, rp.dst)
    case Taken(e) => e
  }

  lemma ForwardTakes(s: Node, rp: Msg, now: real)
    requires rp.Rrep? && NodeOk(s)
    ensures var e, p, e' := Lookup(s.rtable, rp.dst), RepliedBy(rp, now), ReplyEntry(s, rp, now);
            && TakesIn(e, rp.dstSeq, rp.hop, p, s.limits, e') && e'.error == e.error
            && e'.adv == (if e.seqno < rp.dstSeq then INFINITY else e.adv)
            && (ForwardRoute(s, rp, now).Taken? <==> Stands(e, rp.dstSeq, rp.hop, p, s.limits))
  {
    var e, p := Lookup(s.rtable, rp.dst), RepliedBy(rp, now);
    KnownOk(s, rp.dst);
    FirstSame(e.paths, p);
    if HasSame(e.paths, p) {
      ExtendProlongs(e.paths, p);
      ApartOrSame(e.paths, p);
    }
  }

  lemma LearnedOk(s: Node, rp: Msg, now: real)
    requires rp.Rrep? && NodeOk(s) && MsgOk(rp)
    ensures var t := s.rtable[rp.dst := ReplyEntry(s, rp, now)];
            && (forall x | x in t :: (t[x].flag == Up ==> t[x].paths != []) && MaxHop(t[x].paths) != INFINITY)
            && (ForwardRoute(s, rp, now).Taken? ==> t[rp.dst].flag == Up)
  {
    var t := s.rtable[rp.dst := ReplyEntry(s, rp, now)];
    SameTableLegal(s, {rp});
    if ForwardRoute(s, rp, now).Taken? {
      ForwardLegal(s, rp, now);
    }
    PutLegal(s, s.rtable, rp.dst, t[rp.dst], {rp});
    forall x | x in t ensures (t[x].flag == Up ==> t[x].paths != []) && MaxHop(t[x].paths) != INFINITY {
      TableOk(s, t, {rp}, x);
      LongestFits(t[x].paths);
    }
  }

  lemma ReplyRelays(s: Node, rp: Msg, now: real)
    requires rp.Rrep? && NodeOk(s) && MsgOk(rp) && rp.dst != s.index
    ensures rp.dst in RecvReply(s, rp, now).0.rtable
    ensures Relays(s, rp, now, RecvReply(s, rp, now).0, RecvReply(s, rp, now).1)
  {
    hide ForwardRoute, TakesIn, Stands, MaxHop, NodeOk, RepliedBy;
    ForwardTakes(s, rp, now);
    LearnedOk(s, rp, now);
  }

  /** The table after the reply went on, from that when it was taken. */
  predicate Replied(s: Node, rp: Msg, now: real, t: Table, t': Table)
    requires rp.Rrep? && rp.dst in t
  {
    if GoesOn(s, rp, now, t) then
      var t1 := t[rp.dst := Announced(t[rp.dst], true)];
      t1[rp.ipdst].paths != [] && t' == t1[rp.ipdst := Used(t1[rp.ipdst], now)]
    else t' == t
  }

  lemma ReplyReplied(s: Node, rp: Msg, now: real)
    requires rp.Rrep? && NodeOk(s) && MsgOk(rp) && rp.dst != s.index
    ensures Replied(s, rp, now, s.rtable[rp.dst := ReplyEntry(s, rp, now)], RecvReply(s, rp, now).0.rtable)
    ensures SameRest(s, RecvReply(s, rp, now).0) && RecvReply(s, rp, now).0.seqno == s.seqno
  {
    hide ForwardRoute, TakesIn, Stands, MaxHop, NodeOk, RepliedBy, Used;
    ForwardTakes(s, rp, now);
    LearnedOk(s, rp, now);
  }

  lemma UsedFirst(e: Entry, now: real)
    requires e.paths != []
    ensures FirstUsed(e, Used(e, now), now) && Used(e, now).adv == e.adv && Used(e, now).error == e.error
    ensures Used(e, now).seqno == e.seqno && Used(e, now).flag == e.flag
  {
  }

  lemma RepliedLearns(s: Node, rp: Msg, now: real, x: Entry, s': Node)
    requires rp.Rrep?
    requires TakesIn(Lookup(s.rtable, rp.dst), rp.dstSeq, rp.hop, RepliedBy(rp, now), s.limits, x)
    requires x.error == Lookup(s.rtable, rp.dst).error
    requires x.adv == (if Lookup(s.rtable, rp.dst).seqno < rp.dstSeq then INFINITY else Lookup(s.rtable, rp.dst).adv)
    requires Replied(s, rp, now, s.rtable[rp.dst := x], s'.rtable)
    ensures Learns(s, rp, now, s')
  {
    hide Stands, MaxHop, Announced, Used, FirstUsed;
    var e, t := Lookup(s.rtable, rp.dst), s.rtable[rp.dst := x];
    AdvertisedTold(x, true);
    ToldTakes(e, rp.dstSeq, rp.hop, RepliedBy(rp, now), s.limits, x, Announced(x, true));
    if GoesOn(s, rp, now, t) {
      UsedFirst(t[rp.dst := Announced(x, true)][rp.ipdst], now);
    }
    assert GoesOn(s, rp, now, s'.rtable) <==> GoesOn(s, rp, now, t);
  }

  lemma ReplyLearns(s: Node, rp: Msg, now: real)
    requires rp.Rrep? && NodeOk(s) && MsgOk(rp) && rp.dst != s.index
    ensures Learns(s, rp, now, RecvReply(s, rp, now).0)
    ensures SameRest(s, RecvReply(s, rp, now).0) && RecvReply(s, rp, now).0.seqno == s.seqno
  {
    hide TakesIn, Replied, Learns, RecvReply;
    ForwardTakes(s, rp, now);
    ReplyReplied(s, rp, now);
    RepliedLearns(s, rp, now, ReplyEntry(s, rp, now), RecvReply(s, rp, now).0);
  }

  lemma ReplyLaw(s: Node, rp: Msg, now: real)
    requires rp.Rrep? && NodeOk(s) && MsgOk(rp)
    ensures DoesReply(s, rp, now, RecvReply(s, rp, now).0, RecvReply(s, rp, now).1)
  {
    hide Learns, Relays;
    if rp.dst != s.index {
      ReplyRelays(s, rp, now);
      ReplyLearns(s, rp, now);
    }
  }

  // ----- routes that are lost -----

  /** The entry has no path left and is down under this number. */
  predicate IsLost(e: Entry, seqno: nat) {
    e.flag == Down && e.paths == [] && e.seqno == seqno && e.adv == INFINITY
  }

  /** The one message sent lists exactly these destinations with their numbers; none is sent if there are none. */
  ghost predicate Tells(index: Addr, t': Table, lost: set<Addr>, out: seq<Msg>) {
    if lost == {} then out == []
    else
      && |out| == 1 && out[0].Rerr? && out[0].from == index && out[0].unreachable.Keys == lost
      && forall d | d in lost && d in t' :: out[0].unreachable[d] == t'[d].seqno
  }

  /** The path over nbr is gone, and the entry with it, under this number, if it was the only one. */
  predicate LosesPath(e: Entry, e': Entry, nbr: Addr, highest: nat, seqno: nat) {
    && Lost(e.paths, e'.paths, nbr) && e'.highest == highest
    && if |e.paths| == 1 then IsLost(e', seqno) && !e'.error else e' == e.(paths := e'.paths, highest := highest)
  }

  /** The route to d has a path over the sender of the error and is not newer than what the error says. */
  predicate Hit(t: Table, d: Addr, er: Msg)
    requires er.Rerr?
  {
    d in t && d in er.unreachable && t[d].flag == Up && Leads(t[d].paths, er.from) && t[d].seqno <= er.unreachable[d]
  }

  function ToldOf(t: Table, er: Msg): set<Addr>
    requires er.Rerr?
  {
    set d | d in t && Hit(t, d, er) && |t[d].paths| == 1 && t[d].error
  }

  ghost predicate DoesError(s: Node, er: Msg, s': Node, out: seq<Msg>)
    requires er.Rerr?
  {
    && SameRest(s, s') && s'.bcache == s.bcache && s'.seqno == s.seqno && s'.rtable.Keys == s.rtable.Keys
    && (forall d | d in s.rtable ::
          var highest := Max(s.rtable[d].highest, if d in er.unreachable then er.unreachable[d] else 0);
          if Hit(s.rtable, d, er) then LosesPath(s.rtable[d], s'.rtable[d], er.from, highest, highest)
          else s'.rtable[d] == s.rtable[d])
    && Tells(s.index, s'.rtable, ToldOf(s.rtable, er), out)
  }

  lemma LostAll(ps: seq<Path>, ps': seq<Path>, nbr: Addr)
    requires Lost(ps, ps', nbr)
    ensures ps' == [] <==> |ps| == 1
  {
  }

  lemma ErrorHitsIs(s: Node, d: Addr, er: Msg)
    requires NodeOk(s) && er.Rerr? && d in s.rtable
    ensures ErrorHits(s.rtable, d, er) <==> Hit(s.rtable, d, er)
    ensures var highest := Max(s.rtable[d].highest, if d in er.unreachable then er.unreachable[d] else 0);
            if Hit(s.rtable, d, er)
            then LosesPath(s.rtable[d], AfterError(s.rtable, d, er), er.from, highest, highest)
            else AfterError(s.rtable, d, er) == s.rtable[d]
    ensures ErrorSpreads(s.rtable, d, er) <==> d in ToldOf(s.rtable, er)
  {
    var e := s.rtable[d];
    DeleteLoses(e.paths, er.from);
    if Hit(s.rtable, d, er) {
      LostAll(e.paths, Delete(e.paths, NextIs(er.from)), er.from);
    }
  }

  lemma ErrorLaw(s: Node, er: Msg)
    requires NodeOk(s) && er.Rerr?
    ensures DoesError(s, er, RecvError(s, er).0, RecvError(s, er).1)
  {
    hide LosesPath, Hit, ErrorHits, AfterError, ErrorSpreads, ToldOf;
    forall d | d in s.rtable
      ensures ErrorSpreads(s.rtable, d, er) <==> d in ToldOf(s.rtable, er)
      ensures var highest := Max(s.rtable[d].highest, if d in er.unreachable then er.unreachable[d] else 0);
              if Hit(s.rtable, d, er)
              then LosesPath(s.rtable[d], AfterError(s.rtable, d, er), er.from, highest, highest)
              else AfterError(s.rtable, d, er) == s.rtable[d]
    {
      ErrorHitsIs(s, d, er);
    }
    ToldKnown(s.rtable, er);
    assert Propagated(s.rtable, er).Keys == ToldOf(s.rtable, er);
  }

  lemma ToldKnown(t: Table, er: Msg)
    requires er.Rerr?
    ensures forall d | d in ToldOf(t, er) :: d in t
  {
  }

  predicate Over(e: Entry, nbr: Addr) {
    e.flag == Up && Leads(e.paths, nbr)
  }

  function ToldOver(t: Table, nbr: Addr): set<Addr> {
    set d | d in t && Over(t[d], nbr) && |t[d].paths| == 1 && t[d].error
  }

  /** The neighbour is gone: all paths over it are, and the routes that had no other, under a newer number, and those
      somebody was told of are told of again. */
  ghost predicate DoesLoseLink(s: Node, nbr: Addr, s': Node, out: seq<Msg>) {
    && s'.index == s.index && s'.limits == s.limits && s'.bid == s.bid && s'.bcache == s.bcache
    && s'.nbrs == s.nbrs - {nbr} && s'.seqno == s.seqno + 2 && s'.rtable.Keys == s.rtable.Keys
    && (forall d | d in s.rtable ::
          var e := s.rtable[d];
          if Over(e, nbr) then LosesPath(e, s'.rtable[d], nbr, e.highest, Max(e.seqno + 1, e.highest))
          else s'.rtable[d] == e)
    && Tells(s.index, s'.rtable, ToldOver(s.rtable, nbr), out)
  }

  lemma LinkEntry(e: Entry, nbr: Addr)
    ensures if Over(e, nbr) then LosesPath(e, AfterLinkFailure(e, nbr), nbr, e.highest, Max(e.seqno + 1, e.highest))
            else AfterLinkFailure(e, nbr) == e
    ensures FailureSpreads(e, nbr) <==> Over(e, nbr) && |e.paths| == 1 && e.error
  {
    DeleteLoses(e.paths, nbr);
    if Over(e, nbr) {
      LostAll(e.paths, Delete(e.paths, NextIs(nbr)), nbr);
    }
  }

  lemma LinkLaw(s: Node, nbr: Addr)
    ensures DoesLoseLink(s, nbr, LoseNeighbour(s, nbr).0, LoseNeighbour(s, nbr).1)
  {
    hide LosesPath, Over, AfterLinkFailure, FailureSpreads;
    forall d | d in s.rtable
      ensures var e := s.rtable[d];
              if Over(e, nbr) then LosesPath(e, AfterLinkFailure(e, nbr), nbr, e.highest, Max(e.seqno + 1, e.highest))
              else AfterLinkFailure(e, nbr) == e
      ensures FailureSpreads(s.rtable[d], nbr) <==> d in ToldOver(s.rtable, nbr)
    {
      LinkEntry(s.rtable[d], nbr);
    }
    assert Broken(s.rtable, nbr).Keys == ToldOver(s.rtable, nbr);
  }

  /** The smallest odd number above n that is not below m. */
  predicate NextOdd(k: nat, n: nat, m: nat) {
    k % 2 == 1 && n < k && m <= k && (k <= n + 2 || k <= m + 1)
  }

  /** Exactly the paths that have not expired are left, and an entry without any is lost. */
  ghost predicate Expires(e: Entry, e': Entry, now: real) {
    && (forall p :: p in e'.paths <==> p in e.paths && p.expire >= now)
    && e'.highest == e.highest
    && if e'.paths == [] then IsLost(e', e'.seqno) && NextOdd(e'.seqno, e.seqno, e.highest) && e'.error == e.error
       else e' == e.(paths := e'.paths)
  }

  /** While no time has passed nothing expires. */
  ghost predicate DoesPurge(s: Node, now: real, s': Node) {
    && SameRest(s, s') && s'.bcache == s.bcache && s'.seqno == s.seqno && s'.rtable.Keys == s.rtable.Keys
    && forall d | d in s.rtable ::
         if s.rtable[d].flag == Up && now > 0.0 then Expires(s.rtable[d], s'.rtable[d], now)
         else s'.rtable[d] == s.rtable[d]
  }

  lemma PurgeLaw(s: Node, now: real)
    ensures DoesPurge(s, now, PurgeRoutes(s, now))
  {
    forall d | d in s.rtable && s.rtable[d].flag == Up && now > 0.0
      ensures Expires(s.rtable[d], AfterExpiry(s.rtable[d], now), now)
    {
      UnexpiredMembers(s.rtable[d].paths, now);
    }
  }

  // ----- asking and sending -----

  /** The node asks for d, if it has no route, under new numbers of its own and for its last number of d. */
  predicate DoesAsk(s: Node, d: Addr, ttl: nat, s': Node, out: seq<Msg>)
    requires d in s.rtable
  {
    && s'.index == s.index && s'.limits == s.limits && s'.nbrs == s.nbrs && s'.bcache == s.bcache
    && s'.rtable == s.rtable
    && if s.rtable[d].flag == Up then s' == s && out == []
       else
         && s'.seqno == s.seqno + 2 && s'.bid == s.bid + 1 && |out| == 1 && out[0].Rreq?
         && out[0].from == out[0].src == s.index && out[0].hop == 0 && out[0].ttl == ttl
         && out[0].bid == s.bid && out[0].srcSeq == s'.seqno
         && out[0].dst == d && out[0].dstSeq == s.rtable[d].seqno
  }

  lemma AskLaw(s: Node, d: Addr, ttl: nat)
    requires d in s.rtable
    ensures DoesAsk(s, d, ttl, SendRequest(s, d, ttl).0, SendRequest(s, d, ttl).1)
  {
  }

  /** A data packet goes over the first path, which lives on; who forwards one will tell of errors. Without a route the
      node asks if the packet is its own, and otherwise says that it has none. */
  predicate DoesData(s: Node, d: Addr, own: bool, quiet: bool, ttl: nat, now: real, s': Node, out: seq<Msg>) {
    var e := Lookup(s.rtable, d);
    var known := s.(rtable := s.rtable[d := e]);
    if e.flag == Up then
      && d in s'.rtable && s' == s.(rtable := s.rtable[d := s'.rtable[d]]) && out == []
      && FirstUsed(e, s'.rtable[d], now) && s'.rtable[d].adv == e.adv && s'.rtable[d].error == (e.error || !own)
    else if own && !quiet then DoesAsk(known, d, ttl, s', out)
    else s' == known && out == if own then [] else [Rerr(s.index, map[d := e.seqno])]
  }

  lemma DataLaw(s: Node, d: Addr, own: bool, quiet: bool, ttl: nat, now: real)
    requires NodeOk(s)
    ensures DoesData(s, d, own, quiet, ttl, now, Resolve(s, d, own, quiet, ttl, now).0,
                     Resolve(s, d, own, quiet, ttl, now).1)
  {
    KnownOk(s, d);
  }

  // ----- any event -----

  /** A greeting is a reply of a neighbour about itself. */
  predicate DoesHello(s: Node, m: Msg, now: real, s': Node, out: seq<Msg>)
    requires m.Hello?
  {
    && out == []
    && DoesReply(s.(nbrs := s.nbrs + {m.from}),
                 Rrep(m.from, s.index, s.index, 0, m.from, m.seqno, 0, s.index, HELLO_LIFE, 0), now, s', [])
  }

  lemma HelloLaw(s: Node, m: Msg, now: real)
    requires NodeOk(s) && m.Hello? && MsgOk(m)
    ensures DoesHello(s, m, now, RecvHello(s, m, now), [])
  {
    var s1 := s.(nbrs := s.nbrs + {m.from});
    ReplyLaw(s1, AsReply(s, m), now);
  }

  /** A node greets its neighbours while it has a route. */
  predicate DoesGreet(s: Node, s': Node, out: seq<Msg>) {
    && s' == s
    && out == if exists d | d in s.rtable :: s.rtable[d].flag == Up then [Hello(s.index, s.seqno)] else []
  }

  /** What the event does to its node, and what the node sends. */
  ghost predicate Does(s: Node, e: Event, s': Node, out: seq<Msg>) {
    match e
    case Receive(_, m, now) => (
      match m
      case Rreq(_, _, _, _, _, _, _, _, _) => DoesRequest(s, m, now, s', out)
      case Rrep(_, _, _, _, _, _, _, _, _, _) => DoesReply(s, m, now, s', out)
      case Rerr(_, _) => DoesError(s, m, s', out)
      case Hello(_, _) => DoesHello(s, m, now, s', out))
    case Data(_, dst, own, quiet, ttl, now) => DoesData(s, dst, own, quiet, ttl, now, s', out)
    case Request(_, dst, ttl) => dst in s.rtable && DoesAsk(s, dst, ttl, s', out)
    case LoseLink(_, nbr) => DoesLoseLink(s, nbr, s', out)
    case Expire(_, now) => DoesPurge(s, now, s') && out == []
    case Forget(_, ids) => s' == s.(bcache := s.bcache - ids) && out == []
    case Greet(_) => DoesGreet(s, s', out)
  }

  lemma HandleLaw(s: Node, e: Event)
    requires NodeOk(s) && (e.Receive? ==> MsgOk(e.msg)) && (e.Request? ==> e.dst in s.rtable)
    ensures Does(s, e, Handle(s, e).0, Handle(s, e).1)
  {
    hide DoesRequest, DoesReply, DoesError, DoesHello, DoesData, DoesAsk, DoesLoseLink, DoesPurge;
    match e
    case Receive(_, m, now) =>
      match m {
        case Rreq(_, _, _, _, _, _, _, _, _) => RequestLaw(s, m, now);
        case Rrep(_, _, _, _, _, _, _, _, _, _) => ReplyLaw(s, m, now);
        case Rerr(_, _) => ErrorLaw(s, m);
        case Hello(_, _) => HelloLaw(s, m, now);
      }
    case Data(_, dst, own, quiet, ttl, now) => DataLaw(s, dst, own, quiet, ttl, now);
    case Request(_, dst, ttl) => AskLaw(s, dst, ttl);
    case LoseLink(_, nbr) => LinkLaw(s, nbr);
    case Expire(_, now) => PurgeLaw(s, now);
    case _ =>
  }

  // ----- runs -----

  /** In every reachable state of any network, every event does what it should. */
  lemma EventLaw(c: Config, net: Net, e: Event)
    requires Reachable(c, net) && Enabled(net, e)
    ensures Does(net.nodes[e.at], e, Apply(net, e).nodes[e.at], Handle(net.nodes[e.at], e).1)
  {
    hide Does, Handle;
    ReachableInv(c, net);
    HandleLaw(net.nodes[e.at], e);
  }

  /** In every run, a reply that a node sends on, not being what it is about, goes to the next hop of a path to the
      node that asked which the sender has at that moment; and a node sends one on exactly if it heard one that it
      took, knows the way back, and knows the request and has not answered it. */
  lemma RepliesGoBack(c: Config, net: Net, e: Event)
    requires Reachable(c, net) && Enabled(net, e) && e.Receive? && e.msg.Rrep? && e.msg.dst != e.at
    ensures var s, s', out := net.nodes[e.at], Apply(net, e).nodes[e.at], Handle(net.nodes[e.at], e).1;
            && (out != [] <==> GoesOn(s, e.msg, e.now, s'.rtable) && e.msg.ttl != 1)
            && forall m | m in out ::
                 m.Rrep? && m.ipdst == e.msg.ipdst && m.ipdst in s'.rtable && Leads(s'.rtable[m.ipdst].paths, m.nexthop)
  {
    hide Handle, Reachable, Learns;
    EventLaw(c, net, e);
    ReachableInv(c, net);
  }
}
