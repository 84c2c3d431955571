// Whole runs of the receiving side of BayFullTcp: when rcv_nxt_ and the queue stay right, and how they go wrong.
module BayRuns {
  import opened BayReassembly

  // ----- all runs -----

  ghost predicate Forward(es: seq<Seg>) {
    forall e | e in es :: e.start <= e.end
  }

  /** rcv_nxt_ and the queue are right after every segment. */
  ghost predicate AllAgree(init: int, es: seq<Seg>)
    requires Forward(es)
  {
    forall i | 0 <= i <= |es| :: Agrees(init, es[..i], After(init, es[..i]))
  }

  ghost predicate AllFit(init: int, es: seq<Seg>)
    requires Forward(es)
  {
    forall i | 0 <= i < |es| :: Fits(After(init, es[..i]), es[i])
  }

  lemma OneMore(init: int, es: seq<Seg>, i: nat)
    requires Forward(es) && i < |es|
    ensures es[..i + 1] == es[..i] + [es[i]]
    ensures After(init, es[..i + 1]) == Recv(After(init, es[..i]), es[i]).0
  {
    assert es[..i + 1][..i] == es[..i];
  }

  lemma {:induction false} FitAgrees(init: int, es: seq<Seg>, i: nat)
    requires Forward(es) && AllFit(init, es) && i <= |es|
    ensures Agrees(init, es[..i], After(init, es[..i]))
  {
    if i == 0 {
      assert forall x :: !Covered([], x);
    } else {
      FitAgrees(init, es, i - 1);
      OneMore(init, es, i - 1);
      FitsIff(init, es[..i - 1], es[i - 1], After(init, es[..i - 1]));
    }
  }

  /** For segments cut in any way, in any order and with any duplicates: after each of them rcv_nxt_ is the first byte
      not received and the queue is sorted and has exactly what arrived beyond it, exactly if each of them fits. */
  lemma AgreeIff(init: int, es: seq<Seg>)
    requires Forward(es)
    ensures AllAgree(init, es) <==> AllFit(init, es)
  {
    if AllAgree(init, es) {
      forall i | 0 <= i < |es| ensures Fits(After(init, es[..i]), es[i]) {
        assert Agrees(init, es[..i], After(init, es[..i])) && Agrees(init, es[..i + 1], After(init, es[..i + 1]));
        OneMore(init, es, i);
        FitsIff(init, es[..i], es[i], After(init, es[..i]));
      }
    }
    if AllFit(init, es) {
      forall i | 0 <= i <= |es| ensures Agrees(init, es[..i], After(init, es[..i])) {
        FitAgrees(init, es, i);
      }
    }
  }

  // ----- segments cut in one way -----

  ghost predicate SameOrApart(a: Seg, b: Seg) {
    a.Empty() || b.Empty() || (a.start == b.start && a.end == b.end) || a.end <= b.start || b.end <= a.start
  }

  /** The sender cuts its data in one way, however often it sends a piece. */
  ghost predicate Aligned(init: int, es: seq<Seg>) {
    && (forall e | e in es :: init <= e.start <= e.end)
    && forall a, b | a in es && b in es :: SameOrApart(a, b)
  }

  /** Trimming leaves an aligned segment whole or drops it. */
  lemma NeverPartial(init: int, es: seq<Seg>, n: Seg, s: State)
    requires Aligned(init, es + [n]) && Agrees(init, es, s)
    ensures n.start >= s.rcvNxt || n.end <= s.rcvNxt
  {
    if n.start < s.rcvNxt < n.end {
      assert n in es + [n];
      assert Covered(es, s.rcvNxt - 1);
      var e :| e in es && e.Has(s.rcvNxt - 1);
      assert e in es + [n] && SameOrApart(e, n);
      assert e.Has(s.rcvNxt);
    }
  }

  /** An aligned queue has its ends in the order of its starts. */
  lemma EndsAscend(init: int, es: seq<Seg>, l: seq<Seg>)
    requires Aligned(init, es) && Sorted(l) && l != [] && forall i | 0 <= i < |l| :: l[i] in es && !l[i].Empty()
    ensures LastReaches(l)
  {
    var k := InSequence(l);
    forall i | 0 <= i < k ensures l[i].end <= l[k - 1].end {
      assert SameOrApart(l[i], l[k - 1]) && l[i].start <= l[k - 1].start;
    }
  }

  lemma AlignedFits(init: int, es: seq<Seg>, n: Seg, s: State)
    requires Aligned(init, es + [n]) && Agrees(init, es, s)
    ensures Fits(s, n)
  {
    NeverPartial(init, es, n, s);
    if n.start >= s.rcvNxt && !n.Empty() {
      forall e | e in s.list ensures e.start <= n.start || n.end <= e.start {
        HeldIff(es, s.rcvNxt, s.list, e);
        assert e in es + [n] && n in es + [n] && SameOrApart(e, n);
      }
      if n.start == s.rcvNxt {
        var l := [n] + s.list;
        ExpectedSorted(s, n, l);
        forall i | 0 <= i < |l| ensures l[i] in es + [n] && !l[i].Empty() {
          HeldIff(es, s.rcvNxt, s.list, l[i]);
          assert i > 0 ==> l[i] == s.list[i - 1];
        }
        EndsAscend(init, es + [n], l);
      }
    }
  }

  lemma AlignedFront(init: int, es: seq<Seg>, i: nat)
    requires Aligned(init, es) && i <= |es|
    ensures Aligned(init, es[..i])
  {
    forall e | e in es[..i] ensures e in es {
    }
  }

  lemma NextFits(init: int, es: seq<Seg>, i: nat)
    requires Aligned(init, es) && i < |es| && Agrees(init, es[..i], After(init, es[..i]))
    ensures Fits(After(init, es[..i]), es[i])
  {
    AlignedFront(init, es, i + 1);
    OneMore(init, es, i);
    AlignedFits(init, es[..i], es[i], After(init, es[..i]));
  }

  lemma {:induction false} AlignedAgrees(init: int, es: seq<Seg>, i: nat)
    requires Aligned(init, es) && i <= |es|
    ensures Agrees(init, es[..i], After(init, es[..i]))
  {
    if i == 0 {
      assert forall x :: !Covered([], x);
    } else {
      AlignedAgrees(init, es, i - 1);
      NextFits(init, es, i - 1);
      OneMore(init, es, i - 1);
      FitsIff(init, es[..i - 1], es[i - 1], After(init, es[..i - 1]));
    }
  }

  /** A sender that cuts its data in one way, however often it sends a piece, sends what fits. */
  lemma RunAgrees(init: int, es: seq<Seg>)
    requires Aligned(init, es)
    ensures AllFit(init, es) && Agrees(init, es, After(init, es))
  {
    forall i | 0 <= i < |es| ensures Fits(After(init, es[..i]), es[i]) {
      AlignedAgrees(init, es, i);
      NextFits(init, es, i);
    }
    AlignedAgrees(init, es, |es|);
    assert es[..|es|] == es;
  }

  /** Once every byte up to `last` has arrived, all of it has been taken in and nothing is queued. */
  lemma AllArrived(init: int, es: seq<Seg>, last: int)
    requires Forward(es) && AllFit(init, es) && init <= last
    requires (forall x | init <= x < last :: Covered(es, x)) && forall e | e in es :: e.end <= last
    ensures After(init, es) == State(last, [])
  {
    FitAgrees(init, es, |es|);
    assert es[..|es|] == es;
    var s := After(init, es);
    assert !Covered(es, last) && !Covered(es, s.rcvNxt);
    if s.list != [] {
      var e := s.list[0];
      HeldIff(es, s.rcvNxt, s.list, e);
    }
  }

  // ----- whatever arrives -----

  /** What a queue always is like: nothing in it is empty, it begins beyond rcv_nxt_, and everything ends beyond
      whatever starts before it. */
  ghost predicate Lined(s: State) {
    && (forall e | e in s.list :: !e.Empty())
    && (s.list != [] ==> s.list[0].start > s.rcvNxt)
    && EndBeyond(s.list)
  }

  ghost predicate EndBeyond(l: seq<Seg>) {
    forall i, j | 0 <= i < j < |l| :: l[i].start < l[j].end
  }

  lemma InsertLines(list: seq<Seg>, m: Seg)
    requires EndBeyond(list) && !m.Empty() && forall e | e in list :: !e.Empty()
    ensures EndBeyond(Insert(list, m))
  {
    var k, l := Place(list, m), Insert(list, m);
    forall i | 0 <= i < k ensures list[i].start < m.end {
      assert list[|list| - 1] in list;
      assert i == |list| - 1 || list[i].start < list[|list| - 1].end;
    }
    forall j | k <= j < |list| ensures m.start < list[j].end {
      assert list[j] in list;
      assert j == k || list[k].start < list[j].end;
    }
    forall i, j | 0 <= i < j < |l| ensures l[i].start < l[j].end {
      assert l[i] == if i < k then list[i] else if i == k then m else list[i - 1];
      assert l[j] == if j < k then list[j] else if j == k then m else list[j - 1];
    }
  }

  /** What leaves with a segment expected next ends beyond rcv_nxt_. */
  lemma FillForward(l: seq<Seg>, r: int)
    requires l != [] && EndBeyond(l) && l[0].end > r && (|l| > 1 ==> l[1].end > l[1].start > r)
    ensures l[InSequence(l) - 1].end > r
  {
    var k := InSequence(l);
    assert k <= 2 || l[1].start < l[k - 1].end;
  }

  lemma RestLined(l: seq<Seg>)
    requires l != [] && EndBeyond(l) && forall i | 0 <= i < |l| :: !l[i].Empty()
    ensures Lined(State(l[InSequence(l) - 1].end, l[InSequence(l)..]))
  {
    InSequenceIs(l);
    var k := InSequence(l);
    forall i, j | 0 <= i < j < |l[k..]| ensures l[k..][i].start < l[k..][j].end {
      assert l[k + i].start < l[k + j].end;
    }
  }

  lemma InsertFull(list: seq<Seg>, m: Seg)
    requires !m.Empty() && forall e | e in list :: !e.Empty()
    ensures forall i | 0 <= i < |Insert(list, m)| :: !Insert(list, m)[i].Empty()
  {
    InsertInserts(list, m);
  }

  lemma AddLined(s: State, m: Seg)
    requires Lined(s) && !m.Empty() && m.start >= s.rcvNxt
    ensures Lined(Add(s, m).0) && s.rcvNxt <= Add(s, m).0.rcvNxt
  {
    var l := Insert(s.list, m);
    InsertFull(s.list, m);
    InsertLines(s.list, m);
    if l[0].start <= s.rcvNxt {
      assert l[0] == m;
      if |l| > 1 {
        assert l[1] == s.list[0] && s.list[0] in s.list;
      }
      FillForward(l, s.rcvNxt);
      RestLined(l);
    }
  }

  lemma RecvLined(s: State, n: Seg)
    requires Lined(s) && n.start <= n.end
    ensures Lined(Recv(s, n).0) && s.rcvNxt <= Recv(s, n).0.rcvNxt
  {
    if n.start >= s.rcvNxt && !n.Empty() && (n.start > s.rcvNxt || s.list != []) {
      RecvUntrimmed(s, n);
      AddLined(s, n);
    } else if n.start < s.rcvNxt < n.end && s.list != [] {
      RecvTrimmed(s, n, Overrun(s, n));
      AddLined(s, Overrun(s, n));
    }
  }

  lemma {:induction false} RunLined(init: int, es: seq<Seg>)
    requires Forward(es)
    ensures Lined(After(init, es))
  {
    if es != [] {
      RunLined(init, es[..|es| - 1]);
      RecvLined(After(init, es[..|es| - 1]), es[|es| - 1]);
    }
  }

  /** Whatever the segments, rcv_nxt_ never goes back. */
  lemma {:induction false} NeverGoesBack(init: int, es: seq<Seg>, i: nat)
    requires Forward(es) && i <= |es|
    ensures After(init, es[..i]).rcvNxt <= After(init, es).rcvNxt
  {
    if i == |es| {
      assert es[..i] == es;
    } else {
      var front := es[..|es| - 1];
      assert front[..i] == es[..i];
      NeverGoesBack(init, front, i);
      RunLined(init, front);
      RecvLined(After(init, front), es[|es| - 1]);
    }
  }

  // ----- what is acknowledged and passed up at once -----

  /** A segment with PUSH left the queue. */
  ghost predicate PushLeft(before: seq<Seg>, after: seq<Seg>) {
    exists e :: e in before && e.push && multiset(after)[e] < multiset(before)[e]
  }

  /** A segment with PUSH was taken in: the one that came, or one that waited for it. */
  ghost predicate PushTaken(s: State, n: Seg, s': State) {
    s'.rcvNxt > s.rcvNxt && (n.push || PushLeft(s.list, s'.list))
  }

  /** The segment has bytes that were not taken in before, and meets a hole or a queue. */
  predicate Waits(s: State, n: Seg) {
    n.start < n.end && s.rcvNxt < n.end && (n.start > s.rcvNxt || s.list != [])
  }

  lemma PushedSplit(list: seq<Seg>, k: nat)
    requires k <= |list|
    ensures Pushed(list[..k]) <==> PushLeft(list, list[k..])
  {
    var gone, stay := list[..k], list[k..];
    assert list == gone + stay;
    if Pushed(gone) {
      var i :| 0 <= i < |gone| && gone[i].push;
      assert gone[i] in gone && gone[i] in list;
      assert multiset(gone)[gone[i]] > 0;
    }
    if e :| e in list && e.push && multiset(stay)[e] < multiset(list)[e] {
      assert multiset(gone)[e] > 0;
      assert e in gone;
    }
  }

  lemma FrontPushed(m: Seg, list: seq<Seg>, k: nat)
    requires k <= |list|
    ensures Pushed(([m] + list)[..k + 1]) <==> m.push || Pushed(list[..k])
  {
    var l := ([m] + list)[..k + 1];
    assert l == [m] + list[..k];
    if Pushed(list[..k]) {
      var i :| 0 <= i < k && list[i].push;
      assert l[i + 1].push;
    }
    if Pushed(l) {
      var i :| 0 <= i < |l| && l[i].push;
      assert i == 0 || list[..k][i - 1].push;
    }
    assert l[0] == m;
  }

  /** What leaves with m when it fills the hole. */
  lemma FillPushes(m: Seg, list: seq<Seg>)
    ensures var l := [m] + list; var k := InSequence(l);
            (Pushed(l[..k]) <==> m.push || PushLeft(list, l[k..]))
  {
    var l := [m] + list;
    var k := InSequence(l);
    FrontPushed(m, list, k - 1);
    PushedSplit(list, k - 1);
    assert l[k..] == list[k - 1..];
  }

  /** A segment that comes to the front of the queue is in front of all of it. */
  lemma FrontIs(s: State, m: Seg)
    requires Lined(s) && !m.Empty() && m.start >= s.rcvNxt
    ensures var l := Insert(s.list, m);
            l[0].start <= s.rcvNxt ==> l == [m] + s.list && l[InSequence(l) - 1].end > s.rcvNxt
  {
    var l := Insert(s.list, m);
    InsertLines(s.list, m);
    if l[0].start <= s.rcvNxt {
      assert Place(s.list, m) == 0;
      assert l == [m] + s.list;
      if |l| > 1 {
        assert l[1] == s.list[0] && s.list[0] in s.list;
      }
      FillForward(l, s.rcvNxt);
    }
  }

  lemma AddPushes(s: State, m: Seg)
    requires Lined(s) && !m.Empty() && m.start >= s.rcvNxt
    ensures Add(s, m).1 <==> PushTaken(s, m, Add(s, m).0)
  {
    FrontIs(s, m);
    FillPushes(m, s.list);
  }

  /** What recv asks for: the application is called exactly when a pushed piece is complete, and the sender is told at
      once of what is old, and of what waits for a hole to be filled or ends such a wait without a PUSH. */
  ghost predicate Reacts(s: State, n: Seg, s': State, r: Reaction) {
    && (r.upcall <==> PushTaken(s, n, s'))
    && (r.ackNow <==> (n.start < s.rcvNxt && n.end <= s.rcvNxt) || (Waits(s, n) && !PushTaken(s, n, s')))
  }

  lemma ReactsTo(s: State, n: Seg)
    requires Lined(s) && n.start <= n.end
    ensures Reacts(s, n, Recv(s, n).0, Recv(s, n).1)
  {
    if Waits(s, n) {
      if n.start >= s.rcvNxt {
        RecvUntrimmed(s, n);
        AddPushes(s, n);
      } else {
        RecvTrimmed(s, n, Overrun(s, n));
        AddPushes(s, Overrun(s, n));
      }
    } else if n.start <= s.rcvNxt < n.end {
      RecvDirect(s, n);
    }
  }

  /** In every run, after any segments, the next one gets the reaction it should; in particular one that has bytes and
      leaves rcv_nxt_ where it was is acknowledged at once. */
  lemma ReactionLaw(init: int, es: seq<Seg>, n: Seg)
    requires Forward(es) && n.start <= n.end
    ensures var s := After(init, es); var (s', r) := Recv(s, n);
            Reacts(s, n, s', r) && (n.start < n.end && s'.rcvNxt == s.rcvNxt ==> r.ackNow)
  {
    RunLined(init, es);
    var s := After(init, es);
    ReactsTo(s, n);
    if n.start <= s.rcvNxt < n.end && s.list == [] {
      RecvDirect(s, n);
    }
  }

  // ----- what does not fit -----

  /** Bytes 15 to 19 never arrive, and are acknowledged. */
  lemma OverlapLosesBytes()
    ensures var es := [Seg(0, 10, false), Seg(20, 30, false), Seg(5, 15, false)];
            After(0, es) == State(30, []) && FirstMissing(0, es, 15)
  {
    var es := [Seg(0, 10, false), Seg(20, 30, false), Seg(5, 15, false)];
    assert es[..2] == [Seg(0, 10, false), Seg(20, 30, false)];
    assert es[..2][..1] == [Seg(0, 10, false)];
    assert es[..2][..1][..0] == [];
    assert After(0, es[..2][..1]) == State(10, []);
    assert Insert([], Seg(20, 30, false)) == [Seg(20, 30, false)];
    assert After(0, es[..2]) == State(10, [Seg(20, 30, false)]);
    var l := Insert([Seg(20, 30, false)], Seg(10, 20, false));
    assert l == [Seg(10, 20, false), Seg(20, 30, false)];
    assert InSequence(l[1..]) == 1 && InSequence(l) == 2;
    assert es[2] == Seg(5, 15, false);
    forall x | 0 <= x < 15 ensures Covered(es, x) {
      assert es[0] in es && es[2] in es;
      assert es[0].Has(x) || es[2].Has(x);
    }
  }

  lemma FirstQueued(r: int, a: Seg)
    requires r < a.start < a.end
    ensures Recv(State(r, []), a).0 == State(r, [a])
  {
    RecvUntrimmed(State(r, []), a);
    AddBeyond(State(r, []), a, [a]);
  }

  /** A segment that begins before the queue's only one ends is put behind it, wherever it begins. */
  lemma SecondQueued(r: int, a: Seg, b: Seg)
    requires r < a.start < b.end && r < b.start < b.end && b.start < a.end
    ensures Recv(State(r, [a]), b).0 == State(r, [a, b])
  {
    assert [a][1..] == [] && First([a], b.end) == 1;
    assert Insert([a], b) == [a, b];
    RecvUntrimmed(State(r, [a]), b);
    AddBeyond(State(r, [a]), b, [a, b]);
  }

  /** The hole in front is filled; what is taken in ends before the first in the queue begins. */
  lemma HoleFilled(a: Seg, b: Seg, n: Seg)
    requires n.start < n.end < a.start && n.start < b.end
    ensures Recv(State(n.start, [a, b]), n).0 == State(n.end, [a, b])
  {
    assert First([a, b], n.end) == 0;
    assert Insert([a, b], n) == [n, a, b];
    assert InSequence([n, a, b]) == 1 && [n, a, b][1..] == [a, b];
  }

  /** The segment expected next does not come to the front of the queue. */
  lemma StalledBehind(a: Seg, b: Seg)
    requires b.start < a.start < b.end
    ensures Recv(State(b.start, [a, b]), b).0.rcvNxt == b.start
  {
    assert First([a, b], b.end) >= 1;
    assert Insert([a, b], b)[0] == a;
  }

  lemma AfterOneMore(init: int, es: seq<Seg>, e: Seg)
    requires (forall x | x in es :: x.start <= x.end) && e.start <= e.end
    ensures (forall x | x in es + [e] :: x.start <= x.end) && After(init, es + [e]) == Recv(After(init, es), e).0
  {
    assert (es + [e])[..|es|] == es;
  }

  /** Segments that overlap each other in the queue end up out of order there: all bytes before 30 have arrived, byte 15
      stays the one expected, and sending its segment again does not help. */
  lemma QueuedOverlapStalls()
    ensures var es := [Seg(20, 30, false), Seg(15, 25, false), Seg(10, 15, false)];
            && After(10, es) == State(15, [Seg(20, 30, false), Seg(15, 25, false)]) && FirstMissing(10, es, 30)
            && Recv(After(10, es), Seg(15, 25, false)).0.rcvNxt == 15
  {
    var a, b, n := Seg(20, 30, false), Seg(15, 25, false), Seg(10, 15, false);
    FirstQueued(10, a);
    SecondQueued(10, a, b);
    HoleFilled(a, b, n);
    StalledBehind(a, b);
    AfterOneMore(10, [], a);
    AfterOneMore(10, [] + [a], b);
    AfterOneMore(10, [] + [a] + [b], n);
    assert [] + [a] + [b] + [n] == [a, b, n];
    AllThere(a, b, n);
  }

  lemma AllThere(a: Seg, b: Seg, n: Seg)
    requires n.start < n.end == b.start < a.start <= b.end < a.end
    ensures FirstMissing(n.start, [a, b, n], a.end)
  {
    var es := [a, b, n];
    forall x | n.start <= x < a.end ensures Covered(es, x) {
      assert es[0] in es && es[1] in es && es[2] in es;
      assert es[0].Has(x) || es[1].Has(x) || es[2].Has(x);
    }
  }

  /** Three segments linked to each other leave the queue together. */
  lemma AllThreeLeave(n: Seg, a: Seg, b: Seg)
    requires n.start < n.end == a.start <= b.start <= a.end && b.start < b.end
    ensures Recv(State(n.start, [a, b]), n).0 == State(b.end, [])
  {
    assert First([a, b], n.end) == 0;
    var l := [n, a, b];
    assert Insert([a, b], n) == l;
    assert l[1..] == [a, b] && [a, b][1..] == [b];
    assert InSequence([b]) == 1 && InSequence([a, b]) == 2 && InSequence(l) == 3;
    RecvWhole(State(n.start, [a, b]), n);
  }

  /** A short segment behind a long one that starts before it takes rcv_nxt_ back to its own end: all bytes before 40
      have arrived, those from 30 on are asked for again. */
  lemma NestedFallsShort()
    ensures var es := [Seg(20, 40, false), Seg(25, 30, false), Seg(10, 20, false)];
            After(10, es) == State(30, []) && FirstMissing(10, es, 40)
  {
    var a, b, n := Seg(20, 40, false), Seg(25, 30, false), Seg(10, 20, false);
    FirstQueued(10, a);
    SecondQueued(10, a, b);
    AllThreeLeave(n, a, b);
    AfterOneMore(10, [], a);
    AfterOneMore(10, [] + [a], b);
    AfterOneMore(10, [] + [a] + [b], n);
    assert [] + [a] + [b] + [n] == [a, b, n];
    NestedCovers(a, b, n);
  }

  lemma NestedCovers(a: Seg, b: Seg, n: Seg)
    requires n.start < n.end == a.start <= b.start <= b.end < a.end
    ensures FirstMissing(n.start, [a, b, n], a.end)
  {
    var es := [a, b, n];
    forall x | n.start <= x < a.end ensures Covered(es, x) {
      assert es[0] in es && es[2] in es;
      assert es[0].Has(x) || es[2].Has(x);
    }
  }
}
