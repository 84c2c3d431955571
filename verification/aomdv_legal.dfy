// Every AOMDV handler makes only legal changes to its node.
module AomdvLegal {
  import opened AomdvPaths
  import opened AomdvRtable
  import opened AomdvAgent
  import opened AomdvNetwork

  lemma Unchanged(l: Limits, e: Entry, d: Addr, heard: set<Msg>)
    requires EntryOk(l, e)
    ensures EntryLegal(l, e, e, d, heard)
  {
  }

  /** Lists that differ in lifetimes only. */
  predicate SameHops(ps: seq<Path>, qs: seq<Path>) {
    |ps| == |qs| && forall i | 0 <= i < |ps| :: ps[i].(expire := 0.0) == qs[i].(expire := 0.0)
  }

  /** Lifetimes, the error mark and a first advertisement may still change after a legal change. */
  lemma ThenTouch(l: Limits, e: Entry, e1: Entry, e2: Entry, d: Addr, heard: set<Msg>)
    requires EntryLegal(l, e, e1, d, heard) && SameHops(e1.paths, e2.paths)
    requires e2.seqno == e1.seqno && e2.flag == e1.flag && e2.highest == e1.highest
    requires e2.adv == e1.adv || (e1.adv == INFINITY && e1.flag == Up && e2.adv == MaxHop(e1.paths))
    ensures EntryLegal(l, e, e2, d, heard)
  {
    forall p | p in e2.paths
      ensures 1 <= p.hopcount <= LONGEST && p.hopcount <= e2.adv && PathOrigin(l, e, e2, d, p, heard)
    {
      var q := Counterpart(e1.paths, e2.paths, p);
      assert PathOrigin(l, e, e1, d, q, heard);
      OriginTouched(l, e, e1, e2, d, q, p, heard);
    }
    SameDisjoint(e1.paths, e2.paths);
    AdvTouched(e, e1, e2);
  }

  lemma Counterpart(ps: seq<Path>, qs: seq<Path>, p: Path) returns (q: Path)
    requires SameHops(ps, qs) && p in qs
    ensures q in ps && q.nexthop == p.nexthop && q.hopcount == p.hopcount
  {
    var i :| 0 <= i < |qs| && qs[i] == p;
    q := ps[i];
    assert ps[i].(expire := 0.0) == qs[i].(expire := 0.0);
    assert q.nexthop == q.(expire := 0.0).nexthop && q.hopcount == q.(expire := 0.0).hopcount;
  }

  lemma OriginTouched(l: Limits, e: Entry, e1: Entry, e2: Entry, d: Addr, q: Path, p: Path, heard: set<Msg>)
    requires PathOrigin(l, e, e1, d, q, heard) && e2.seqno == e1.seqno
    requires q.nexthop == p.nexthop && q.hopcount == p.hopcount
    ensures PathOrigin(l, e, e2, d, p, heard)
  {
    if m :| m in heard && Source(m, d, e1.seqno, q) && Takes(e, e1.seqno, OfferHops(m)) {
      assert Source(m, d, e2.seqno, p);
    }
  }

  lemma SameDisjoint(ps: seq<Path>, qs: seq<Path>)
    requires SameHops(ps, qs) && Disjoint(ps)
    ensures Disjoint(qs)
  {
    forall i, j | 0 <= i < j < |qs| ensures qs[i].nexthop != qs[j].nexthop && qs[i].lasthop != qs[j].lasthop {
      assert ps[i].nexthop != ps[j].nexthop && ps[i].lasthop != ps[j].lasthop;
      assert ps[i].(expire := 0.0) == qs[i].(expire := 0.0) && ps[j].(expire := 0.0) == qs[j].(expire := 0.0);
    }
  }

  lemma AdvTouched(e: Entry, e1: Entry, e2: Entry)
    requires AdvOrigin(e, e1) && SameHops(e1.paths, e2.paths) && e2.seqno == e1.seqno && EntryGrows(e, e1)
    requires e2.adv == e1.adv || (e1.adv == INFINITY && e1.paths != [] && e2.adv == MaxHop(e1.paths))
    requires forall p | p in e1.paths :: p.hopcount >= 1
    ensures AdvOrigin(e, e2)
  {
    if e2.adv != e1.adv {
      LongestExists(e1.paths);
    }
    if p :| p in e1.paths && p.hopcount == e2.adv {
      var i :| 0 <= i < |e1.paths| && e1.paths[i] == p;
      assert e1.paths[i].(expire := 0.0) == e2.paths[i].(expire := 0.0);
      assert e2.paths[i] in e2.paths && e2.paths[i].hopcount == e2.adv;
    }
  }

  lemma LongestExists(ps: seq<Path>)
    requires ps != [] && forall p | p in ps :: p.hopcount >= 1
    ensures exists p | p in ps :: p.hopcount == MaxHop(ps)
  {
    assert ps[0] in ps;
  }

  // ----- taking an offer -----

  lemma RenewLegal(l: Limits, e: Entry, m: Msg, p: Path)
    requires EntryOk(l, e) && Advertises(m) && MsgOk(m) && e.seqno < OfferSeq(m)
    requires Source(m, About(m), OfferSeq(m), p)
    ensures EntryLegal(l, e, Renewed(e, OfferSeq(m), p), About(m), {m})
  {
  }

  lemma InsertLegal(l: Limits, e: Entry, m: Msg, p: Path)
    requires EntryOk(l, e) && Advertises(m) && MsgOk(m) && e.seqno == OfferSeq(m) && e.adv > OfferHops(m)
    requires Source(m, About(m), OfferSeq(m), p)
    requires !Has(e.paths, Meets(p.nexthop, p.lasthop)) && |e.paths| < l.maxPaths
             && p.hopcount - MinHop(e.paths) <= l.maxDiff
    ensures EntryLegal(l, e, e.(paths := e.paths + [p]), About(m), {m})
  {
    var e' := e.(paths := e.paths + [p]);
    InsertDisjoint(e.paths, p);
    assert e.flag == Up;
    forall q | q in e'.paths
      ensures 1 <= q.hopcount <= LONGEST && q.hopcount <= e'.adv && PathOrigin(l, e, e', About(m), q, {m})
    {
    }
  }

  lemma ExtendLegal(l: Limits, e: Entry, q: Query, expire: real, d: Addr, heard: set<Msg>)
    requires EntryOk(l, e)
    ensures EntryLegal(l, e, e.(paths := Extend(e.paths, q, expire)), d, heard)
  {
    Unchanged(l, e, d, heard);
    ThenTouch(l, e, e, e.(paths := Extend(e.paths, q, expire)), d, heard);
  }

  /** A new disjoint path under the sequence number the entry has already. */
  lemma NewReverseLegal(l: Limits, e: Entry, m: Msg, p: Path)
    requires EntryOk(l, e) && Advertises(m) && MsgOk(m) && e.seqno == OfferSeq(m) && e.adv > OfferHops(m)
    requires Source(m, About(m), OfferSeq(m), p) && !Has(e.paths, Meets(p.nexthop, p.lasthop))
    ensures EntryLegal(l, e, NewReverse(e, p, l).entry, About(m), {m})
    ensures NewReverse(e, p, l).entry.seqno == e.seqno && NewReverse(e, p, l).entry.flag == e.flag
  {
    Unchanged(l, e, About(m), {m});
    if |e.paths| < l.maxPaths && p.hopcount - MinHop(e.paths) <= l.maxDiff {
      InsertLegal(l, e, m, p);
    }
  }

  lemma SameReverseLegal(l: Limits, e: Entry, rq: Msg, p: Path, index: Addr)
    requires EntryOk(l, e) && rq.Rreq? && MsgOk(rq) && e.seqno == rq.srcSeq && e.adv > rq.hop
    requires Source(rq, rq.src, rq.srcSeq, p)
    ensures EntryLegal(l, e, SameReverse(e, rq, p, index, l).entry, rq.src, {rq})
    ensures SameReverse(e, rq, p, index, l).entry.seqno == e.seqno
    ensures SameReverse(e, rq, p, index, l).entry.flag == e.flag == Up
  {
    if Has(e.paths, Same(p.nexthop, p.lasthop)) {
      ExtendLegal(l, e, Same(p.nexthop, p.lasthop), p.expire, rq.src, {rq});
    } else if !Has(e.paths, Meets(p.nexthop, p.lasthop)) {
      NewReverseLegal(l, e, rq, p);
    } else {
      Unchanged(l, e, rq.src, {rq});
    }
  }

  lemma ReverseOfLegal(l: Limits, e: Entry, rq: Msg, p: Path, index: Addr)
    requires EntryOk(l, e) && rq.Rreq? && MsgOk(rq) && Source(rq, rq.src, rq.srcSeq, p)
    ensures var rev := ReverseOf(e, rq, p, index, l);
            && EntryLegal(l, e, rev.entry, rq.src, {rq})
            && (!rev.dropped ==> rev.entry.seqno == rq.srcSeq && rev.entry.flag == Up)
  {
    if e.seqno < rq.srcSeq {
      RenewLegal(l, e, rq, p);
    } else if e.seqno == rq.srcSeq && e.adv > rq.hop {
      SameReverseLegal(l, e, rq, p, index);
    } else {
      Unchanged(l, e, rq.src, {rq});
    }
  }

  lemma KnownOk(s: Node, d: Addr)
    requires NodeOk(s)
    ensures EntryOk(s.limits, Lookup(s.rtable, d))
  {
  }

  lemma RequestedPath(s: Node, rq: Msg, now: real) returns (p: Path)
    requires rq.Rreq?
    ensures p == Path(rq.from, rq.hop + 1, now + REV_ROUTE_LIFE, FirstHop(s, rq)) && Source(rq, rq.src, rq.srcSeq, p)
    ensures ReverseRoute(s, rq, now) == ReverseOf(Lookup(s.rtable, rq.src), rq, p, s.index, s.limits)
  {
    p := Path(rq.from, rq.hop + 1, now + REV_ROUTE_LIFE, FirstHop(s, rq));
  }

  lemma ReverseLegal(s: Node, rq: Msg, now: real)
    requires NodeOk(s) && rq.Rreq? && MsgOk(rq)
    ensures EntryLegal(s.limits, Lookup(s.rtable, rq.src), ReverseRoute(s, rq, now).entry, rq.src, {rq})
    ensures !ReverseRoute(s, rq, now).dropped ==>
              ReverseRoute(s, rq, now).entry.seqno == rq.srcSeq && ReverseRoute(s, rq, now).entry.flag == Up
  {
    KnownOk(s, rq.src);
    var p := RequestedPath(s, rq, now);
    ReverseOfLegal(s.limits, Lookup(s.rtable, rq.src), rq, p, s.index);
  }

  lemma SameForwardLegal(l: Limits, e: Entry, rp: Msg, p: Path)
    requires EntryOk(l, e) && rp.Rrep? && MsgOk(rp) && e.seqno == rp.dstSeq && e.adv > rp.hop
    requires Source(rp, rp.dst, rp.dstSeq, p) && SameForward(e, p, l).Taken?
    ensures EntryLegal(l, e, SameForward(e, p, l).entry, rp.dst, {rp})
    ensures SameForward(e, p, l).entry.seqno == e.seqno && SameForward(e, p, l).entry.flag == e.flag
  {
    if Has(e.paths, Same(p.nexthop, p.lasthop)) {
      ExtendLegal(l, e, Same(p.nexthop, p.lasthop), p.expire, rp.dst, {rp});
    } else {
      InsertLegal(l, e, rp, p);
    }
  }

  lemma ForwardLegal(s: Node, rp: Msg, now: real)
    requires NodeOk(s) && rp.Rrep? && MsgOk(rp)
    requires ForwardRoute(s, rp, now).Taken?
    ensures EntryLegal(s.limits, Lookup(s.rtable, rp.dst), ForwardRoute(s, rp, now).entry, rp.dst, {rp})
    ensures ForwardRoute(s, rp, now).entry.seqno == rp.dstSeq && ForwardRoute(s, rp, now).entry.flag == Up
  {
    var e := Lookup(s.rtable, rp.dst);
    var p := Path(rp.from, rp.hop + 1, now + rp.lifetime, rp.firstHop);
    assert EntryOk(s.limits, e) && Source(rp, rp.dst, rp.dstSeq, p);
    if e.seqno < rp.dstSeq {
      RenewLegal(s.limits, e, rp, p);
    } else {
      assert e.flag == Up;
      SameForwardLegal(s.limits, e, rp, p);
    }
  }

  // ----- the answers -----

  ghost predicate TableLegal(s: Node, t: Table, heard: set<Msg>) {
    forall d :: EntryLegal(s.limits, Lookup(s.rtable, d), Lookup(t, d), d, heard)
  }

  lemma PutLegal(s: Node, t: Table, d: Addr, e: Entry, heard: set<Msg>)
    requires TableLegal(s, t, heard) && EntryLegal(s.limits, Lookup(s.rtable, d), e, d, heard)
    ensures TableLegal(s, t[d := e], heard)
  {
    forall x ensures EntryLegal(s.limits, Lookup(s.rtable, x), Lookup(t[d := e], x), x, heard) {
      assert EntryLegal(s.limits, Lookup(s.rtable, x), Lookup(t, x), x, heard);
    }
  }

  lemma SameTableLegal(s: Node, heard: set<Msg>)
    requires NodeOk(s)
    ensures TableLegal(s, s.rtable, heard)
  {
    forall d ensures EntryLegal(s.limits, Lookup(s.rtable, d), Lookup(s.rtable, d), d, heard) {
      Unchanged(s.limits, Lookup(s.rtable, d), d, heard);
    }
  }

  /** Advertising an up route, and marking it, is legal on top of legal changes. */
  lemma AdvertiseLegal(s: Node, t: Table, d: Addr, error: bool, heard: set<Msg>)
    requires TableLegal(s, t, heard) && Lookup(t, d).flag == Up
    ensures TableLegal(s, t[d := Advertised(Lookup(t, d)).(error := error)], heard)
    ensures Advertised(Lookup(t, d)).adv != INFINITY
  {
    var e1 := Lookup(t, d);
    var e2 := Advertised(e1).(error := error);
    assert EntryLegal(s.limits, Lookup(s.rtable, d), e1, d, heard);
    ThenTouch(s.limits, Lookup(s.rtable, d), e1, e2, d, heard);
    PutLegal(s, t, d, e2, heard);
    LongestExists(e1.paths);
  }

  lemma UseLegal(s: Node, t: Table, d: Addr, now: real, error: bool, heard: set<Msg>)
    requires TableLegal(s, t, heard) && Lookup(t, d).paths != []
    ensures TableLegal(s, t[d := Used(Lookup(t, d), now).(error := error)], heard)
  {
    var e1 := Lookup(t, d);
    var e2 := Used(e1, now).(error := error);
    assert EntryLegal(s.limits, Lookup(s.rtable, d), e1, d, heard);
    ThenTouch(s.limits, Lookup(s.rtable, d), e1, e2, d, heard);
    PutLegal(s, t, d, e2, heard);
  }

  /** The node as it was when a handler made its last change to the table. */
  predicate SameSelf(s: Node, h: Node) {
    h.index == s.index && h.limits == s.limits && h.seqno == s.seqno
  }

  lemma AnswerLegal(s: Node, h: Node, rq: Msg, path: bool, duplicate: bool, now: real)
    requires NodeOk(s) && rq.Rreq? && rq.src in h.rtable && (rq.src, rq.bid) in h.bcache
    requires SameSelf(s, h) && TableLegal(s, h.rtable, {rq}) && SelfDown(h)
    requires rq.dst != s.index && CanAnswer(h.rtable, rq)
    ensures Legal(s, {rq}, Respond(h, rq, path, duplicate, now))
  {
    var rt := h.rtable[rq.dst];
    AdvertiseLegal(s, h.rtable, rq.dst, true, {rq});
    assert EntryLegal(s.limits, Lookup(s.rtable, rq.dst), rt, rq.dst, {rq});
  }

  lemma PassOnLegal(s: Node, h: Node, rq: Msg, path: bool, duplicate: bool, now: real)
    requires NodeOk(s) && rq.Rreq? && MsgOk(rq) && rq.src in h.rtable && (rq.src, rq.bid) in h.bcache
    requires SameSelf(s, h) && TableLegal(s, h.rtable, {rq}) && SelfDown(h)
    requires h.rtable[rq.src].flag == Up && h.rtable[rq.src].seqno == rq.srcSeq && rq.src != s.index
    requires rq.dst != s.index && !CanAnswer(h.rtable, rq)
    ensures Legal(s, {rq}, Respond(h, rq, path, duplicate, now))
  {
    var rt0 := h.rtable[rq.src];
    if duplicate || rt0.paths == [] {
      Conclude(s, h, [], {rq});
    } else {
      AdvertiseLegal(s, h.rtable, rq.src, rt0.error, {rq});
      assert Advertised(rt0).(error := rt0.error) == Advertised(rt0);
      var (r, out) := Respond(h, rq, path, duplicate, now);
      assert r.rtable == h.rtable[rq.src := Advertised(rt0)];
      Conclude(s, r, out, {rq});
    }
  }

  lemma RespondLegal(s: Node, h: Node, rq: Msg, path: bool, duplicate: bool, now: real)
    requires NodeOk(s) && rq.Rreq? && MsgOk(rq) && rq.src in h.rtable && (rq.src, rq.bid) in h.bcache
    requires SameSelf(s, h) && TableLegal(s, h.rtable, {rq}) && SelfDown(h)
    requires h.rtable[rq.src].flag == Up && h.rtable[rq.src].seqno == rq.srcSeq && rq.src != s.index
    ensures Legal(s, {rq}, Respond(h, rq, path, duplicate, now))
  {
    if rq.dst != s.index {
      if CanAnswer(h.rtable, rq) {
        AnswerLegal(s, h, rq, path, duplicate, now);
      } else {
        PassOnLegal(s, h, rq, path, duplicate, now);
      }
    }
  }

  lemma RequestLegal(s: Node, rq: Msg, now: real)
    requires NodeOk(s) && rq.Rreq? && MsgOk(rq)
    ensures Legal(s, {rq}, RecvRequest(s, rq, now))
  {
    SameTableLegal(s, {rq});
    if rq.src != s.index {
      ReverseLegal(s, rq, now);
      var rev := ReverseRoute(s, rq, now);
      PutLegal(s, s.rtable, rq.src, rev.entry, {rq});
      if !rev.dropped {
        RespondLegal(s, Heard(s, rq, now), rq, rev.path, (rq.src, rq.bid) in s.bcache, now);
      }
    }
  }

  lemma Conclude(s: Node, r: Node, out: seq<Msg>, heard: set<Msg>)
    requires NodeOk(s) && SameSelf(s, r) && TableLegal(s, r.rtable, heard) && SelfDown(r)
    requires forall m | m in out :: SentOk(r, m)
    ensures Legal(s, heard, (r, out))
  {
  }

  /** What Relay leaves in the table. */
  lemma RelayTable(s: Node, h: Node, rp: Msg, now: real, heard: set<Msg>)
    requires rp.Rrep? && rp.dst in h.rtable && CanRelay(h, rp) && TableLegal(s, h.rtable, heard)
    requires h.rtable[rp.dst].flag == Up && SelfDown(h)
    ensures var t := Relay(h, rp, now).0.rtable;
            && TableLegal(s, t, heard) && SelfDown(Relay(h, rp, now).0)
            && rp.dst in t && t[rp.dst].seqno == h.rtable[rp.dst].seqno
            && t[rp.dst].adv == Advertised(h.rtable[rp.dst]).adv
            && t[rp.dst].adv != INFINITY
  {
    AdvertiseLegal(s, h.rtable, rp.dst, true, heard);
    var t1 := h.rtable[rp.dst := Advertised(h.rtable[rp.dst]).(error := true)];
    var back := t1[rp.ipdst];
    UseLegal(s, t1, rp.ipdst, now, back.error, heard);
    assert Used(back, now).(error := back.error) == Used(back, now);
  }

  lemma RelayLegal(s: Node, h: Node, rp: Msg, now: real)
    requires NodeOk(s) && rp.Rrep? && MsgOk(rp) && rp.dst != s.index && rp.dst in h.rtable && CanRelay(h, rp)
    requires SameSelf(s, h) && TableLegal(s, h.rtable, {rp}) && SelfDown(h)
    requires h.rtable[rp.dst].seqno == rp.dstSeq && h.rtable[rp.dst].flag == Up
    ensures Legal(s, {rp}, Relay(h, rp, now))
  {
    RelayTable(s, h, rp, now, {rp});
    var (r, out) := Relay(h, rp, now);
    Conclude(s, r, out, {rp});
  }

  lemma ReplyLegal(s: Node, rp: Msg, now: real)
    requires NodeOk(s) && rp.Rrep? && MsgOk(rp)
    ensures Legal(s, {rp}, RecvReply(s, rp, now))
  {
    SameTableLegal(s, {rp});
    if rp.dst != s.index {
      match ForwardRoute(s, rp, now) {
        case Refused =>
          PutLegal(s, s.rtable, rp.dst, Lookup(s.rtable, rp.dst), {rp});
        case Taken(rt) =>
          ForwardLegal(s, rp, now);
          PutLegal(s, s.rtable, rp.dst, rt, {rp});
          var h := s.(rtable := s.rtable[rp.dst := rt]);
          if CanRelay(h, rp) {
            RelayLegal(s, h, rp, now);
          }
      }
    }
  }

  // ----- losing paths -----

  /** An up entry may lose some of its paths, or all of them if its sequence number becomes odd and newer. */
  lemma ShrinkLegal(l: Limits, e: Entry, ps: seq<Path>, highest: nat, d: Addr, heard: set<Msg>)
    requires EntryOk(l, e) && e.flag == Up && ps != [] && Disjoint(ps) && |ps| <= |e.paths| && ZeroOrOdd(highest)
    requires forall p | p in ps :: p in e.paths
    ensures EntryLegal(l, e, e.(paths := ps, highest := highest), d, heard)
  {
    forall p | p in ps ensures PathOrigin(l, e, e.(paths := ps, highest := highest), d, p, heard) {
      assert p in e.paths;
    }
  }

  lemma DeleteKeeps(ps: seq<Path>, q: Query)
    requires Disjoint(ps)
    ensures Disjoint(Delete(ps, q)) && |Delete(ps, q)| <= |ps|
    ensures forall p | p in Delete(ps, q) :: p in ps
  {
  }

  lemma ErrorEntryLegal(s: Node, d: Addr, er: Msg)
    requires NodeOk(s) && er.Rerr? && MsgOk(er) && d in s.rtable
    ensures EntryLegal(s.limits, s.rtable[d], AfterError(s.rtable, d, er), d, {er})
    ensures AfterError(s.rtable, d, er).paths == [] ==> ZeroOrOdd(AfterError(s.rtable, d, er).seqno)
  {
    var e := s.rtable[d];
    assert EntryOk(s.limits, e);
    Unchanged(s.limits, e, d, {er});
    if ErrorHits(s.rtable, d, er) {
      var ps := Delete(e.paths, NextIs(er.from));
      DeleteKeeps(e.paths, NextIs(er.from));
      if ps != [] {
        ShrinkLegal(s.limits, e, ps, Max(e.highest, er.unreachable[d]), d, {er});
      }
    }
  }

  lemma LinkEntryLegal(l: Limits, e: Entry, id: Addr, d: Addr)
    requires EntryOk(l, e)
    ensures EntryLegal(l, e, AfterLinkFailure(e, id), d, {})
    ensures AfterLinkFailure(e, id).paths == [] ==> ZeroOrOdd(AfterLinkFailure(e, id).seqno)
  {
    Unchanged(l, e, d, {});
    if UsesLink(e, id) {
      DeleteKeeps(e.paths, NextIs(id));
      if Delete(e.paths, NextIs(id)) != [] {
        ShrinkLegal(l, e, Delete(e.paths, NextIs(id)), e.highest, d, {});
      }
    }
  }

  lemma ExpiryEntryLegal(l: Limits, e: Entry, now: real, d: Addr)
    requires EntryOk(l, e)
    ensures EntryLegal(l, e, AfterExpiry(e, now), d, {})
  {
    Unchanged(l, e, d, {});
    if e.flag == Up {
      UnexpiredDisjoint(e.paths, now);
      UnexpiredMembers(e.paths, now);
      if Unexpired(e.paths, now) != [] {
        ShrinkLegal(l, e, Unexpired(e.paths, now), e.highest, d, {});
      }
    }
  }

  // ----- the remaining handlers -----

  lemma ErrorTableLegal(s: Node, er: Msg)
    requires NodeOk(s) && er.Rerr? && MsgOk(er)
    ensures TableLegal(s, RecvError(s, er).0.rtable, {er})
  {
    var t := RecvError(s, er).0.rtable;
    forall d ensures EntryLegal(s.limits, Lookup(s.rtable, d), Lookup(t, d), d, {er}) {
      if d in s.rtable {
        ErrorEntryLegal(s, d, er);
      } else {
        Unchanged(s.limits, FreshEntry, d, {er});
      }
    }
  }

  lemma ReportOk(r: Node, down: map<Addr, nat>)
    requires forall d | d in down :: ZeroOrOdd(down[d])
    ensures SentOk(r, Rerr(r.index, down))
  {
  }

  lemma ErrorSelf(s: Node, er: Msg)
    requires NodeOk(s) && er.Rerr?
    ensures SameSelf(s, RecvError(s, er).0) && SelfDown(RecvError(s, er).0)
  {
    assert Lookup(s.rtable, s.index).flag == Down;
    assert s.index in s.rtable ==> !ErrorHits(s.rtable, s.index, er);
  }

  lemma PropagatedOk(s: Node, er: Msg)
    requires NodeOk(s) && er.Rerr? && MsgOk(er)
    ensures forall d | d in Propagated(s.rtable, er) :: ZeroOrOdd(Propagated(s.rtable, er)[d])
  {
    forall d | d in Propagated(s.rtable, er) ensures ZeroOrOdd(Propagated(s.rtable, er)[d]) {
      ErrorEntryLegal(s, d, er);
    }
  }

  lemma ErrorSent(s: Node, er: Msg, r: Node)
    requires NodeOk(s) && er.Rerr? && MsgOk(er) && r.index == s.index
    ensures forall m | m in RecvError(s, er).1 :: SentOk(r, m)
  {
    PropagatedOk(s, er);
    ReportOk(r, Propagated(s.rtable, er));
  }

  lemma ErrorLegal(s: Node, er: Msg)
    requires NodeOk(s) && er.Rerr? && MsgOk(er)
    ensures Legal(s, {er}, RecvError(s, er))
  {
    ErrorTableLegal(s, er);
    ErrorSelf(s, er);
    ErrorSent(s, er, RecvError(s, er).0);
    Conclude(s, RecvError(s, er).0, RecvError(s, er).1, {er});
  }

  lemma LinkTableLegal(s: Node, id: Addr)
    requires NodeOk(s)
    ensures TableLegal(s, LinkFailure(s, id).0.rtable, {})
  {
    var t := LinkFailure(s, id).0.rtable;
    forall d ensures EntryLegal(s.limits, Lookup(s.rtable, d), Lookup(t, d), d, {}) {
      if d in s.rtable {
        LinkEntryLegal(s.limits, s.rtable[d], id, d);
      } else {
        Unchanged(s.limits, FreshEntry, d, {});
      }
    }
  }

  lemma BrokenOk(s: Node, id: Addr)
    requires NodeOk(s)
    ensures forall d | d in Broken(s.rtable, id) :: ZeroOrOdd(Broken(s.rtable, id)[d])
  {
    forall d | d in Broken(s.rtable, id) ensures ZeroOrOdd(Broken(s.rtable, id)[d]) {
      LinkEntryLegal(s.limits, s.rtable[d], id, d);
    }
  }

  lemma FailureSelf(s: Node, id: Addr)
    requires NodeOk(s)
    ensures SameSelf(s, LinkFailure(s, id).0) && SelfDown(LinkFailure(s, id).0)
  {
    assert Lookup(s.rtable, s.index).flag == Down;
  }

  lemma FailureSent(s: Node, id: Addr, r: Node)
    requires NodeOk(s) && r.index == s.index
    ensures forall m | m in LinkFailure(s, id).1 :: SentOk(r, m)
  {
    BrokenOk(s, id);
    ReportOk(r, Broken(s.rtable, id));
  }

  lemma LegalFrom(s: Node, s1: Node, heard: set<Msg>, r: (Node, seq<Msg>))
    requires Legal(s1, heard, r)
    requires s1.rtable == s.rtable && s1.index == s.index && s1.limits == s.limits && s1.seqno >= s.seqno
    ensures Legal(s, heard, r)
  {
  }

  /** The link failure is handled by s, which differs from the node s0 in its sequence number and neighbours. */
  lemma FailureLegal(s0: Node, s: Node, id: Addr)
    requires NodeOk(s)
    requires s.rtable == s0.rtable && s.index == s0.index && s.limits == s0.limits && s.seqno >= s0.seqno
    ensures Legal(s0, {}, LinkFailure(s, id))
  {
    LinkTableLegal(s, id);
    FailureSelf(s, id);
    FailureSent(s, id, LinkFailure(s, id).0);
    Conclude(s, LinkFailure(s, id).0, LinkFailure(s, id).1, {});
    LegalFrom(s0, s, {}, LinkFailure(s, id));
  }

  lemma LoseLegal(s: Node, s1: Node, id: Addr)
    requires NodeOk(s1) && s1 == s.(seqno := s.seqno + 2, nbrs := s.nbrs - {id})
    ensures Legal(s, {}, LoseNeighbour(s, id))
  {
    FailureLegal(s, s1, id);
  }

  lemma LinkLegal(s: Node, id: Addr)
    requires NodeOk(s)
    ensures Legal(s, {}, LoseNeighbour(s, id))
  {
    LoseLegal(s, s.(seqno := s.seqno + 2, nbrs := s.nbrs - {id}), id);
  }

  lemma ExpireLegal(s: Node, now: real)
    requires NodeOk(s)
    ensures Legal(s, {}, (PurgeRoutes(s, now), []))
  {
    var r := PurgeRoutes(s, now);
    forall d ensures EntryLegal(s.limits, Lookup(s.rtable, d), Lookup(r.rtable, d), d, {}) {
      if d in s.rtable {
        ExpiryEntryLegal(s.limits, s.rtable[d], now, d);
      } else {
        Unchanged(s.limits, FreshEntry, d, {});
      }
    }
    Conclude(s, r, [], {});
  }

  lemma DataLegal(s: Node, dst: Addr, own: bool, quiet: bool, ttl: nat, now: real)
    requires NodeOk(s)
    ensures Legal(s, {}, Resolve(s, dst, own, quiet, ttl, now))
  {
    var rt := Lookup(s.rtable, dst);
    SameTableLegal(s, {});
    PutLegal(s, s.rtable, dst, rt, {});
    if rt.flag == Up {
      UseLegal(s, s.rtable, dst, now, rt.error || !own, {});
    } else {
      assert EntryOk(s.limits, rt);
    }
  }

  lemma RequestSentLegal(s: Node, dst: Addr, ttl: nat)
    requires NodeOk(s) && dst in s.rtable
    ensures Legal(s, {}, SendRequest(s, dst, ttl))
  {
    SameTableLegal(s, {});
  }

  lemma HelloLegal(s: Node, m: Msg, now: real)
    requires NodeOk(s) && m.Hello? && MsgOk(m)
    ensures Legal(s, {m}, (RecvHello(s, m, now), []))
  {
    var rp := AsReply(s, m);
    var s1 := s.(nbrs := s.nbrs + {m.from});
    ReplyLegal(s1, rp, now);
    var r := RecvHello(s, m, now);
    forall d ensures EntryLegal(s.limits, Lookup(s.rtable, d), Lookup(r.rtable, d), d, {m}) {
      var e, e' := Lookup(s.rtable, d), Lookup(r.rtable, d);
      assert EntryLegal(s.limits, e, e', d, {rp});
      forall p | p in e'.paths ensures PathOrigin(s.limits, e, e', d, p, {m}) {
        assert PathOrigin(s.limits, e, e', d, p, {rp});
        assert Source(rp, d, e'.seqno, p) ==> Source(m, d, e'.seqno, p);
      }
    }
    Conclude(s, r, [], {m});
  }
}
