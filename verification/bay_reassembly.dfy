// The receiving side of BayFullTcp on values: what the reassembly queue and rcv_nxt_ become with each
// data segment, and how they agree with the set of bytes received (ns-2.35/baytcp/tcp-full-bay.cc).
module BayReassembly {

  /** A data segment: the bytes from start up to, not including, end. */
  datatype Seg = Seg(start: int, end: int, push: bool) {
    predicate Empty() {
      start >= end
    }

    ghost predicate Has(x: int) {
      start <= x < end
    }
  }

  datatype State = State(rcvNxt: int, list: seq<Seg>)

  /** What recv does besides: ask for an immediate acknowledgement, call the application. */
  datatype Reaction = Reaction(ackNow: bool, upcall: bool)

  /** The first queued segment that starts at or after `end`, or the length of the queue. */
  function First(list: seq<Seg>, end: int): (k: nat)
    ensures k <= |list|
    ensures forall j | 0 <= j < k :: list[j].start < end
    ensures k < |list| ==> list[k].start >= end
  {
    if list == [] || list[0].start >= end then 0 else 1 + First(list[1..], end)
  }

  function Place(list: seq<Seg>, n: Seg): (k: nat)
    ensures k <= |list|
  {
    if list != [] && list[|list| - 1].end <= n.start then |list| else First(list, n.end)
  }

  function Insert(list: seq<Seg>, n: Seg): seq<Seg> {
    var k := Place(list, n);
    list[..k] + [n] + list[k..]
  }

  /** How many segments at the front follow on each other without a hole. */
  function InSequence(list: seq<Seg>): (k: nat)
    requires list != []
    ensures 1 <= k <= |list|
  {
    if |list| == 1 || list[0].end < list[1].start then 1 else 1 + InSequence(list[1..])
  }

  predicate Pushed(list: seq<Seg>) {
    exists i :: 0 <= i < |list| && list[i].push
  }

  /** BayReassemblyQueue::add, with rcv_nxt_; the Boolean is the PUSH flag of what left the queue. */
  function Add(s: State, n: Seg): (State, bool) {
    var l := Insert(s.list, n);
    if l[0].start > s.rcvNxt then (State(s.rcvNxt, l), false)
    else
      var k := InSequence(l);
      (State(l[k - 1].end, l[k..]), Pushed(l[..k]))
  }

  /** The data part of recv for a segment without FIN. What was received already is trimmed off the front,
      but the queue is given the untrimmed size. */
  function Recv(s: State, n: Seg): (State, Reaction)
    requires n.start <= n.end
  {
    var datalen := n.end - n.start;
    var overlap := s.rcvNxt - n.start;
    if overlap >= datalen && overlap > 0 then (s, Reaction(true, false))
    else
      var todrop := if overlap > 0 then overlap else 0;
      if datalen == todrop then (s, Reaction(false, false))
      else if n.start + todrop == s.rcvNxt && s.list == [] then
        (State(s.rcvNxt + datalen - todrop, []), Reaction(false, n.push))
      else
        var (s', push) := Add(s, Seg(n.start + todrop, n.start + todrop + datalen, n.push));
        (s', Reaction(!push, push))
  }

  // Recv in terms of what is left of the segment.

  /** What is left of a segment, datalen bytes from seqno on, is taken in at once if it is next and nothing waits. */
  function TakenIn(s: State, seqno: int, datalen: int, size: int, push: bool): (State, Reaction) {
    if seqno == s.rcvNxt && s.list == [] then (State(s.rcvNxt + datalen, []), Reaction(false, push))
    else Queued(Add(s, Seg(seqno, seqno + size, push)))
  }

  /** A segment that does not complete a pushed piece is acknowledged at once. */
  function Queued(r: (State, bool)): (State, Reaction) {
    (r.0, Reaction(!r.1, r.1))
  }

  lemma QueuedIs(s: State, seqno: int, datalen: int, size: int, push: bool)
    requires seqno != s.rcvNxt || s.list != []
    ensures TakenIn(s, seqno, datalen, size, push) == Queued(Add(s, Seg(seqno, seqno + size, push)))
  {
  }

  lemma RecvDirect(s: State, n: Seg)
    requires n.start <= s.rcvNxt < n.end && s.list == []
    ensures Recv(s, n) == (State(n.end, []), Reaction(false, n.push))
  {
  }

  lemma RecvTrimmed(s: State, n: Seg, m: Seg)
    requires n.start < s.rcvNxt < n.end && s.list != []
    requires m == Seg(s.rcvNxt, s.rcvNxt + (n.end - n.start), n.push)
    ensures Recv(s, n) == Queued(Add(s, m))
  {
    assert m == Seg(n.start + (s.rcvNxt - n.start), n.start + (s.rcvNxt - n.start) + (n.end - n.start), n.push);
  }

  lemma RecvUntrimmed(s: State, n: Seg)
    requires s.rcvNxt <= n.start < n.end && (n.start != s.rcvNxt || s.list != [])
    ensures Recv(s, n) == Queued(Add(s, n))
  {
    assert n == Seg(n.start + 0, n.start + 0 + (n.end - n.start), n.push);
  }

  /** rcv_nxt_ and the queue after the segments es, the first byte expected being `init`. */
  function After(init: int, es: seq<Seg>): State
    requires forall e | e in es :: e.start <= e.end
  {
    if es == [] then State(init, []) else Recv(After(init, es[..|es| - 1]), es[|es| - 1]).0
  }

  // ----- the set of bytes received -----

  ghost predicate Covered(es: seq<Seg>, x: int) {
    exists e :: e in es && e.Has(x)
  }

  ghost predicate FirstMissing(init: int, es: seq<Seg>, r: int) {
    init <= r && (forall x | init <= x < r :: Covered(es, x)) && !Covered(es, r)
  }

  ghost predicate Sorted(list: seq<Seg>) {
    forall i, j | 0 <= i < j < |list| :: list[i].start <= list[j].start
  }

  /** The queue has what arrived beyond r, as often as it arrived. */
  ghost predicate Holds(es: seq<Seg>, r: int, list: seq<Seg>) {
    forall e :: multiset(list)[e] == if e.start >= r && !e.Empty() then multiset(es)[e] else 0
  }

  ghost predicate Agrees(init: int, es: seq<Seg>, s: State) {
    && FirstMissing(init, es, s.rcvNxt)
    && Holds(es, s.rcvNxt, s.list) && Sorted(s.list)
    && forall e | e in s.list :: e.start > s.rcvNxt
  }

  lemma HeldIff(es: seq<Seg>, r: int, list: seq<Seg>, e: Seg)
    requires Holds(es, r, list)
    ensures e in list <==> e in es && e.start >= r && !e.Empty()
  {
    assert multiset(list)[e] == if e.start >= r && !e.Empty() then multiset(es)[e] else 0;
    assert e in list <==> multiset(list)[e] > 0;
    assert e in es <==> multiset(es)[e] > 0;
  }

  /** l is the queue `list` with n somewhere in it. */
  ghost predicate Inserted(list: seq<Seg>, n: Seg, l: seq<Seg>) {
    && l != [] && multiset(l) == multiset(list) + multiset{n}
    && (forall i | 0 <= i < |l| :: l[i] == n || l[i] in list)
  }

  lemma InsertInserts(list: seq<Seg>, n: Seg)
    ensures Inserted(list, n, Insert(list, n))
  {
    InsertedAt(list, Place(list, n), n);
  }

  lemma InsertedAt(list: seq<Seg>, k: nat, n: Seg)
    requires k <= |list|
    ensures Inserted(list, n, list[..k] + [n] + list[k..])
  {
    assert list == list[..k] + list[k..];
  }

  /** No queued segment starts strictly inside n. */
  predicate NoneInside(list: seq<Seg>, n: Seg) {
    forall e | e in list :: e.start <= n.start || n.end <= e.start
  }

  /** The new segment goes before the first that starts at its end or later. */
  lemma PlaceSplits(list: seq<Seg>, n: Seg)
    requires Sorted(list) && !n.Empty() && forall e | e in list :: !e.Empty()
    ensures var k := Place(list, n);
            && (forall j | 0 <= j < k :: list[j].start < n.end)
            && (forall j | k <= j < |list| :: list[j].start >= n.end)
  {
    if list != [] {
      assert list[|list| - 1] in list;
    }
  }

  lemma InsertSorts(list: seq<Seg>, n: Seg)
    requires Sorted(list) && !n.Empty() && (forall e | e in list :: !e.Empty()) && NoneInside(list, n)
    ensures Sorted(Insert(list, n))
  {
    PlaceSplits(list, n);
    forall j | 0 <= j < Place(list, n) ensures list[j].start <= n.start {
      assert list[j] in list;
    }
  }

  /** The queue stays in order exactly when no queued segment starts inside the new one. */
  lemma InsertSortsIff(list: seq<Seg>, n: Seg)
    requires Sorted(list) && !n.Empty() && forall e | e in list :: !e.Empty()
    ensures Sorted(Insert(list, n)) <==> NoneInside(list, n)
  {
    if NoneInside(list, n) {
      InsertSorts(list, n);
    } else {
      var j :| 0 <= j < |list| && n.start < list[j].start < n.end;
      PlaceSplits(list, n);
      assert Insert(list, n)[j] == list[j] && Insert(list, n)[Place(list, n)] == n;
    }
  }

  /** What leaves the queue is linked, one segment to the next; what stays starts beyond it. */
  lemma {:induction false} InSequenceIs(list: seq<Seg>)
    requires list != []
    ensures var k := InSequence(list);
            && (forall i | 0 <= i < k - 1 :: list[i + 1].start <= list[i].end)
            && (k < |list| ==> list[k].start > list[k - 1].end)
  {
    if InSequence(list) > 1 {
      var rest := list[1..];
      InSequenceIs(rest);
      forall i | 0 <= i < InSequence(list) - 1 ensures list[i + 1].start <= list[i].end {
        assert i > 0 ==> rest[i - 1 + 1].start <= rest[i - 1].end;
      }
    }
  }

  /** It is a run of bytes without a hole. */
  lemma {:induction false} InSequenceCovers(list: seq<Seg>, x: int) returns (i: nat)
    requires list != [] && list[0].start <= x < list[InSequence(list) - 1].end
    ensures i < InSequence(list) && list[i].Has(x)
  {
    if x < list[0].end {
      i := 0;
    } else {
      var j := InSequenceCovers(list[1..], x);
      i := j + 1;
    }
  }

  /** The last segment that leaves the queue reaches as far as any that leaves with it. */
  predicate LastReaches(l: seq<Seg>)
    requires l != []
  {
    var k := InSequence(l);
    forall i | 0 <= i < k :: l[i].end <= l[k - 1].end
  }

  // ----- one arrival -----

  lemma CoveredMore(es: seq<Seg>, n: Seg, x: int)
    ensures Covered(es + [n], x) <==> Covered(es, x) || n.Has(x)
  {
    if Covered(es, x) {
      var e :| e in es && e.Has(x);
      assert e in es + [n];
    }
    assert n in es + [n];
  }

  /** Nothing that arrived covers a byte that the queue and what left it leave open. */
  lemma NextMissing(init: int, es: seq<Seg>, n: Seg, s: State, r: int)
    requires Agrees(init, es, s) && s.rcvNxt <= r && !n.Has(r)
    requires forall e | e in s.list :: !e.Has(r)
    requires forall x | s.rcvNxt <= x < r :: Covered(es + [n], x)
    ensures FirstMissing(init, es + [n], r)
  {
    forall x | init <= x < r ensures Covered(es + [n], x) {
      CoveredMore(es, n, x);
    }
    CoveredMore(es, n, r);
    if Covered(es, r) {
      var e :| e in es && e.Has(r);
      HeldIff(es, s.rcvNxt, s.list, e);
      assert e.Has(s.rcvNxt);
      assert false;
    }
  }

  lemma HoldsMore(es: seq<Seg>, n: Seg, r: int, list: seq<Seg>, r': int, list': seq<Seg>)
    requires Holds(es, r, list) && r <= r'
    requires forall e :: multiset(list')[e] ==
                         if e.start >= r' && !e.Empty() then (multiset(list) + multiset{n})[e] else 0
    ensures Holds(es + [n], r', list')
  {
    forall e: Seg ensures multiset(list')[e] == if e.start >= r' && !e.Empty() then multiset(es + [n])[e] else 0 {
      assert multiset(list)[e] == if e.start >= r && !e.Empty() then multiset(es)[e] else 0;
    }
  }

  lemma DuplicateAgrees(init: int, es: seq<Seg>, n: Seg, s: State)
    requires Agrees(init, es, s) && (n.end <= s.rcvNxt || n.Empty())
    ensures Agrees(init, es + [n], s)
  {
    NextMissing(init, es, n, s, s.rcvNxt) by {
      forall e | e in s.list ensures !e.Has(s.rcvNxt) {
      }
    }
    HoldsMore(es, n, s.rcvNxt, s.list, s.rcvNxt, s.list) by {
      forall e: Seg ensures multiset(s.list)[e] ==
        if e.start >= s.rcvNxt && !e.Empty() then (multiset(s.list) + multiset{n})[e] else 0 {
        HeldIff(es, s.rcvNxt, s.list, e);
      }
    }
  }

  /** The segment expected, or one that overlaps what was taken in, and nothing queued. */
  lemma InOrderAgrees(init: int, es: seq<Seg>, n: Seg, s: State)
    requires Agrees(init, es, s) && s.list == [] && n.start <= s.rcvNxt < n.end
    ensures Agrees(init, es + [n], State(n.end, []))
  {
    forall x | s.rcvNxt <= x < n.end ensures Covered(es + [n], x) {
      CoveredMore(es, n, x);
    }
    NextMissing(init, es, n, s, n.end);
    HoldsMore(es, n, s.rcvNxt, s.list, n.end, s.list) by {
      forall e: Seg ensures multiset(s.list)[e] ==
        if e.start >= n.end && !e.Empty() then (multiset(s.list) + multiset{n})[e] else 0 {
      }
    }
  }

  lemma SplitCounts(l: seq<Seg>, k: nat, e: Seg)
    requires k <= |l|
    ensures multiset(l)[e] == multiset(l[..k])[e] + multiset(l[k..])[e]
  {
    assert l == l[..k] + l[k..];
  }

  /** Only what starts beyond r stays. */
  lemma StaysCounts(l: seq<Seg>, k: nat, r: int, e: Seg)
    requires k <= |l| && (forall i | 0 <= i < |l| :: !l[i].Empty())
    requires (forall i | 0 <= i < k :: l[i].end <= r) && (forall i | k <= i < |l| :: l[i].start > r)
    ensures multiset(l[k..])[e] == if e.start >= r && !e.Empty() then multiset(l)[e] else 0
  {
    SplitCounts(l, k, e);
    assert e in l[..k] ==> e.end <= r && !e.Empty();
    assert e in l[k..] ==> e.start > r && !e.Empty();
    assert e in l[..k] <==> multiset(l[..k])[e] > 0;
    assert e in l[k..] <==> multiset(l[k..])[e] > 0;
  }

  lemma FillHolds(es: seq<Seg>, n: Seg, s: State, l: seq<Seg>, k: nat, r: int)
    requires Holds(es, s.rcvNxt, s.list) && s.rcvNxt <= r && multiset(l) == multiset(s.list) + multiset{n}
    requires k <= |l| && (forall i | 0 <= i < |l| :: !l[i].Empty())
    requires (forall i | 0 <= i < k :: l[i].end <= r) && (forall i | k <= i < |l| :: l[i].start > r)
    ensures Holds(es + [n], r, l[k..])
  {
    forall e: Seg
      ensures multiset(l[k..])[e] == if e.start >= r && !e.Empty() then (multiset(s.list) + multiset{n})[e] else 0
    {
      StaysCounts(l, k, r, e);
    }
    HoldsMore(es, n, s.rcvNxt, s.list, r, l[k..]);
  }

  lemma StaysSorted(l: seq<Seg>, k: nat, r: int)
    requires k <= |l| && Sorted(l) && forall i | k <= i < |l| :: l[i].start > r
    ensures Sorted(l[k..]) && forall e | e in l[k..] :: e.start > r
  {
  }

  lemma QueuedFull(es: seq<Seg>, n: Seg, s: State, l: seq<Seg>)
    requires Holds(es, s.rcvNxt, s.list) && Inserted(s.list, n, l) && !n.Empty()
    ensures forall i | 0 <= i < |l| :: !l[i].Empty() && l[i] in es + [n]
  {
    forall i | 0 <= i < |l| ensures !l[i].Empty() && l[i] in es + [n] {
      HeldIff(es, s.rcvNxt, s.list, l[i]);
    }
  }

  /** A segment beyond the hole waits for it to be filled. */
  lemma WaitAgreesIff(init: int, es: seq<Seg>, n: Seg, s: State, l: seq<Seg>)
    requires Agrees(init, es, s) && Inserted(s.list, n, l) && !n.Empty() && n.start > s.rcvNxt
    ensures l[0].start > s.rcvNxt
    ensures Agrees(init, es + [n], State(s.rcvNxt, l)) <==> Sorted(l)
  {
    if Sorted(l) {
      NextMissing(init, es, n, s, s.rcvNxt);
      QueuedFull(es, n, s, l);
      FillHolds(es, n, s, l, 0, s.rcvNxt);
      assert l[0..] == l;
    }
  }

  /** In an ordered queue what leaves starts before what stays. */
  lemma InSequenceSplits(l: seq<Seg>)
    requires l != [] && Sorted(l) && forall i | 0 <= i < |l| :: !l[i].Empty()
    ensures var k := InSequence(l); var r := l[k - 1].end;
            && (forall i | 0 <= i < k :: l[i].start < r)
            && (forall i | k <= i < |l| :: l[i].start > r)
  {
    InSequenceIs(l);
  }

  /** The segment fills the hole, and all that is now in sequence leaves the queue. */
  lemma FillAgrees(init: int, es: seq<Seg>, n: Seg, s: State, l: seq<Seg>)
    requires Agrees(init, es, s) && l == [n] + s.list && Sorted(l) && !n.Empty() && n.start == s.rcvNxt
    requires Inserted(s.list, n, l) && LastReaches(l)
    ensures Agrees(init, es + [n], State(l[InSequence(l) - 1].end, l[InSequence(l)..]))
  {
    hide FirstMissing, Holds, Sorted;
    var k := InSequence(l);
    var r := l[k - 1].end;
    QueuedFull(es, n, s, l);
    InSequenceSplits(l);
    FillMissing(init, es, n, s, l, r);
    FillHolds(es, n, s, l, k, r);
    StaysSorted(l, k, r);
  }

  lemma FillMissing(init: int, es: seq<Seg>, n: Seg, s: State, l: seq<Seg>, r: int)
    requires Agrees(init, es, s) && l == [n] + s.list && n.start == s.rcvNxt <= r && !n.Has(r)
    requires r == l[InSequence(l) - 1].end
    requires forall i | 0 <= i < |l| :: l[i].end <= r || l[i].start > r
    requires forall i | 0 <= i < |l| :: l[i] in es + [n]
    ensures FirstMissing(init, es + [n], r)
  {
    forall e | e in s.list ensures !e.Has(r) {
      var i :| 0 <= i < |s.list| && s.list[i] == e;
      assert l[i + 1] == e;
    }
    forall x | s.rcvNxt <= x < r ensures Covered(es + [n], x) {
      var i := InSequenceCovers(l, x);
      assert l[i] in es + [n];
    }
    NextMissing(init, es, n, s, r);
  }

  /** A segment in the run that reaches beyond its last one has bytes that rcv_nxt_ then leaves out. */
  lemma ShortOf(es: seq<Seg>, l: seq<Seg>)
    requires l != [] && Sorted(l) && !LastReaches(l) && forall i | 0 <= i < |l| :: !l[i].Empty() && l[i] in es
    ensures Covered(es, l[InSequence(l) - 1].end)
  {
    InSequenceSplits(l);
    var k := InSequence(l);
    var r := l[k - 1].end;
    var i :| 0 <= i < k && l[i].end > r;
    assert l[i].start < r;
    assert l[i].Has(r) && l[i] in es;
  }

  /** A segment that does not fill the hole only goes into the queue. */
  lemma AddBeyond(s: State, n: Seg, l: seq<Seg>)
    requires l == Insert(s.list, n) && l[0].start > s.rcvNxt
    ensures Add(s, n) == (State(s.rcvNxt, l), false)
  {
  }

  /** What recv does with a segment that has nothing new to be trimmed off. */
  lemma RecvWhole(s: State, n: Seg)
    requires !n.Empty() && n.start >= s.rcvNxt
    ensures Recv(s, n).0 ==
            if n.start == s.rcvNxt && s.list == [] then State(n.end, [])
            else
              var l := Insert(s.list, n);
              if l[0].start > s.rcvNxt then State(s.rcvNxt, l)
              else State(l[InSequence(l) - 1].end, l[InSequence(l)..])
  {
    assert Seg(n.start, n.end, n.push) == n;
  }

  // ----- an overlap with what was taken in -----

  /** A segment that overlaps what was taken in and goes beyond it leaves rcv_nxt_ right exactly when
      nothing is queued: otherwise it is entered with its untrimmed length. */
  lemma OverlapRightIff(init: int, es: seq<Seg>, n: Seg, s: State)
    requires Agrees(init, es, s) && n.start < s.rcvNxt < n.end
    ensures FirstMissing(init, es + [n], Recv(s, n).0.rcvNxt) <==> s.list == []
  {
    if s.list == [] {
      InOrderAgrees(init, es, n, s);
    } else {
      OverlapQueued(init, es, n, s);
    }
  }

  /** What the queue is given for such a segment. */
  function Overrun(s: State, n: Seg): Seg {
    Seg(s.rcvNxt, n.end + (s.rcvNxt - n.start), n.push)
  }

  lemma RecvOverlap(s: State, n: Seg)
    requires n.start < s.rcvNxt < n.end && s.list != []
    ensures var l := Insert(s.list, Overrun(s, n));
            Recv(s, n).0.rcvNxt == if l[0].start > s.rcvNxt then s.rcvNxt else l[InSequence(l) - 1].end
  {
  }

  lemma OverlapPlace(es: seq<Seg>, n: Seg, s: State)
    requires n.start < s.rcvNxt < n.end && s.list != [] && Sorted(s.list) && Holds(es, s.rcvNxt, s.list)
    requires forall e | e in s.list :: e.start > s.rcvNxt
    ensures var m := Overrun(s, n); var l := Insert(s.list, m);
            if s.list[0].start < m.end then l[0] == s.list[0] else l == [m] + s.list
  {
    LastBeyond(es, s);
    PlacedFrom(s.list, Overrun(s, n));
  }

  lemma LastBeyond(es: seq<Seg>, s: State)
    requires s.list != [] && Holds(es, s.rcvNxt, s.list)
    ensures s.list[|s.list| - 1].end > s.rcvNxt
  {
    HeldIff(es, s.rcvNxt, s.list, s.list[|s.list| - 1]);
  }

  /** A segment that begins before the queue ends is placed by its end, searching from the front. */
  lemma PlacedFrom(list: seq<Seg>, m: Seg)
    requires list != [] && list[|list| - 1].end > m.start
    ensures if list[0].start < m.end then Insert(list, m)[0] == list[0] else Insert(list, m) == [m] + list
  {
    if list[0].start < m.end {
      assert First(list, m.end) >= 1;
    } else {
      assert First(list, m.end) == 0;
    }
  }

  lemma OverlapQueued(init: int, es: seq<Seg>, n: Seg, s: State)
    requires Agrees(init, es, s) && n.start < s.rcvNxt < n.end && s.list != []
    ensures !FirstMissing(init, es + [n], Recv(s, n).0.rcvNxt)
  {
    OverlapMisread(es, n, s);
    var r := Recv(s, n).0.rcvNxt;
    if r == s.rcvNxt {
      CoveredMore(es, n, s.rcvNxt);
    } else {
      OpenBeyond(init, es, n, s);
      CoveredMore(es, n, n.end);
      assert init <= n.end < r && !Covered(es + [n], n.end);
    }
  }

  /** Either the queue does not notice that the hole is filled, or rcv_nxt_ goes beyond the segment. */
  lemma OverlapMisread(es: seq<Seg>, n: Seg, s: State)
    requires n.start < s.rcvNxt < n.end && s.list != [] && Sorted(s.list) && Holds(es, s.rcvNxt, s.list)
    requires forall e | e in s.list :: e.start > s.rcvNxt
    ensures var r := Recv(s, n).0.rcvNxt; r == s.rcvNxt || (r > n.end && s.list[0].start > n.end)
  {
    var m := Overrun(s, n);
    var l := Insert(s.list, m);
    RecvOverlap(s, n);
    OverlapPlace(es, n, s);
    MisreadHead(es, s, m, l);
    var r := Recv(s, n).0.rcvNxt;
    assert l[0].start > s.rcvNxt ==> r == s.rcvNxt;
    assert l[0].start <= s.rcvNxt ==> r == l[InSequence(l) - 1].end >= m.end > n.end;
  }

  lemma MisreadHead(es: seq<Seg>, s: State, m: Seg, l: seq<Seg>)
    requires s.list != [] && Sorted(s.list) && Holds(es, s.rcvNxt, s.list) && m.start == s.rcvNxt
    requires forall e | e in s.list :: e.start > s.rcvNxt
    requires l != [] && if s.list[0].start < m.end then l[0] == s.list[0] else l == [m] + s.list
    ensures if l[0].start > s.rcvNxt then s.list[0].start < m.end
            else l[InSequence(l) - 1].end >= m.end && s.list[0].start >= m.end
  {
    assert s.list[0] in s.list;
    if s.list[0].start >= m.end {
      BeyondHead(es, s, m);
    }
  }

  lemma BeyondHead(es: seq<Seg>, s: State, m: Seg)
    requires Holds(es, s.rcvNxt, s.list) && Sorted(s.list) && s.list != [] && s.list[0].start >= m.end
    ensures var l := [m] + s.list; l[InSequence(l) - 1].end >= m.end
  {
    var l := [m] + s.list;
    var i := InSequence(l) - 1;
    if i > 0 {
      assert l[i] == s.list[i - 1] && s.list[0].start <= s.list[i - 1].start;
      HeldIff(es, s.rcvNxt, s.list, s.list[i - 1]);
    }
  }

  lemma OpenBeyond(init: int, es: seq<Seg>, n: Seg, s: State)
    requires Agrees(init, es, s) && s.rcvNxt < n.end && s.list != [] && s.list[0].start > n.end
    ensures !Covered(es, n.end)
  {
    forall x | x in es ensures !x.Has(n.end) {
      HeldIff(es, s.rcvNxt, s.list, x);
      assert !x.Has(s.rcvNxt);
      if x in s.list {
        HeadLeast(s.list, x);
      }
    }
  }

  lemma HeadLeast(list: seq<Seg>, x: Seg)
    requires Sorted(list) && x in list
    ensures list[0].start <= x.start
  {
    var i :| 0 <= i < |list| && list[i] == x;
    assert i == 0 || list[0].start <= list[i].start;
  }

  // ----- what fits -----

  /** What recv deals with as it should: nothing new; an overlap with what was taken in while nothing is queued; or a
      segment in front of or between the queued ones, which if it fills the hole frees a run that ends with its
      farthest byte. */
  predicate Fits(s: State, n: Seg) {
    || n.Empty() || n.end <= s.rcvNxt
    || (n.start < s.rcvNxt && s.list == [])
    || (n.start >= s.rcvNxt && NoneInside(s.list, n) && (n.start == s.rcvNxt ==> LastReaches([n] + s.list)))
  }

  /** A queued segment that starts inside the one expected next keeps that from coming to the front. */
  lemma KeptBehind(init: int, es: seq<Seg>, n: Seg, s: State)
    requires Agrees(init, es, s) && n.start == s.rcvNxt < n.end && !NoneInside(s.list, n)
    ensures Recv(s, n).0.rcvNxt == s.rcvNxt && !FirstMissing(init, es + [n], s.rcvNxt)
  {
    hide Holds, Sorted;
    var e :| e in s.list && n.start < e.start < n.end;
    HeadLeast(s.list, e);
    LastBeyond(es, s);
    PlacedFrom(s.list, n);
    RecvWhole(s, n);
    CoveredMore(es, n, s.rcvNxt);
  }

  /** The segment expected next comes to the front if no queued one starts inside it. */
  lemma ComesFirst(es: seq<Seg>, n: Seg, s: State)
    requires Holds(es, s.rcvNxt, s.list) && Sorted(s.list) && (forall e | e in s.list :: e.start > s.rcvNxt)
    requires n.start == s.rcvNxt < n.end && s.list != [] && NoneInside(s.list, n)
    ensures var l := [n] + s.list;
            && Insert(s.list, n) == l && Inserted(s.list, n, l) && Sorted(l)
            && Recv(s, n).0 == State(l[InSequence(l) - 1].end, l[InSequence(l)..])
  {
    hide InSequence;
    assert s.list[0] in s.list;
    LastBeyond(es, s);
    PlacedFrom(s.list, n);
    InsertInserts(s.list, n);
    RecvWhole(s, n);
    ExpectedSorted(s, n, [n] + s.list);
  }

  /** The segment expected next, with others queued. */
  lemma ExpectedIff(init: int, es: seq<Seg>, n: Seg, s: State)
    requires Agrees(init, es, s) && n.start == s.rcvNxt < n.end && s.list != []
    ensures Agrees(init, es + [n], Recv(s, n).0) <==> Fits(s, n)
  {
    hide Holds, Sorted, Insert, Recv, Inserted, InSequence;
    if NoneInside(s.list, n) {
      var l := [n] + s.list;
      ComesFirst(es, n, s);
      QueuedFull(es, n, s, l);
      if LastReaches(l) {
        FillAgrees(init, es, n, s, l);
      } else {
        ShortOf(es + [n], l);
      }
    } else {
      KeptBehind(init, es, n, s);
    }
  }

  lemma ExpectedSorted(s: State, n: Seg, l: seq<Seg>)
    requires Sorted(s.list) && l == [n] + s.list && forall e | e in s.list :: e.start > n.start
    ensures Sorted(l)
  {
  }

  /** One arrival in a right state leaves a right state exactly if it fits. */
  lemma FitsIff(init: int, es: seq<Seg>, n: Seg, s: State)
    requires Agrees(init, es, s) && n.start <= n.end
    ensures Agrees(init, es + [n], Recv(s, n).0) <==> Fits(s, n)
  {
    if n.end <= s.rcvNxt || n.Empty() {
      DuplicateAgrees(init, es, n, s);
    } else if n.start <= s.rcvNxt && s.list == [] {
      InOrderAgrees(init, es, n, s);
      RecvDirect(s, n);
      assert [n] + s.list == [n];
    } else if n.start < s.rcvNxt {
      OverlapQueued(init, es, n, s);
    } else if n.start == s.rcvNxt {
      ExpectedIff(init, es, n, s);
    } else {
      BeyondIff(init, es, n, s);
    }
  }

  lemma BeyondIff(init: int, es: seq<Seg>, n: Seg, s: State)
    requires Agrees(init, es, s) && s.rcvNxt < n.start < n.end
    ensures Agrees(init, es + [n], Recv(s, n).0) <==> Fits(s, n)
  {
    var l := Insert(s.list, n);
    InsertInserts(s.list, n);
    forall e | e in s.list ensures !e.Empty() {
      HeldIff(es, s.rcvNxt, s.list, e);
    }
    InsertSortsIff(s.list, n);
    WaitAgreesIff(init, es, n, s, l);
    RecvWhole(s, n);
  }
}
