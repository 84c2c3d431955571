// The reassembly queue of BayFullTcp as the doubly linked list it is, and the data part of recv
// (ns-2.35/baytcp/tcp-full-bay.cc). The queue's reference to the agent's rcv_nxt_ makes the two one object.
module BayReceiver {
  import opened Common
  import opened BayReassembly

  class SegInfo {
    var next: SegInfo?
    var prev: SegInfo?
    const seg: Seg

    constructor (seg: Seg)
      ensures this.seg == seg && next == null && prev == null
    {
      this.seg := seg;
      next, prev := null, null;
    }
  }

  ghost predicate Carry(nodes: seq<SegInfo>, list: seq<Seg>) {
    |nodes| == |list| && forall i | 0 <= i < |nodes| :: nodes[i].seg == list[i]
  }

  ghost function At(nodes: seq<SegInfo>, i: int): SegInfo? {
    if 0 <= i < |nodes| then nodes[i] else null
  }

  ghost predicate LinkOk(nodes: seq<SegInfo>, i: nat)
    requires i < |nodes|
    reads nodes[i]
  {
    nodes[i].next == At(nodes, i + 1) && nodes[i].prev == At(nodes, i - 1)
  }

  /** The links of the node at position i when n has come in at position k. */
  ghost predicate Around(nodes: seq<SegInfo>, k: nat, n: SegInfo, i: nat)
    requires i < |nodes|
    reads nodes[i]
  {
    && nodes[i].next == (if i + 1 == k then n else At(nodes, i + 1))
    && nodes[i].prev == (if i == k then n else At(nodes, i - 1))
  }

  ghost predicate Linked(nodes: seq<SegInfo>)
    reads nodes
  {
    forall i: nat | i < |nodes| :: LinkOk(nodes, i)
  }

  ghost function InsertAt<T>(nodes: seq<T>, k: nat, n: T): seq<T>
    requires k <= |nodes|
  {
    nodes[..k] + [n] + nodes[k..]
  }

  lemma DistinctInsert(nodes: seq<SegInfo>, k: nat, n: SegInfo)
    requires Distinct(nodes) && k <= |nodes| && n !in nodes
    ensures Distinct(InsertAt(nodes, k, n))
  {
    var new_ := InsertAt(nodes, k, n);
    assert forall i | 0 <= i < |new_| :: new_[i] == if i < k then nodes[i] else if i == k then n else nodes[i - 1];
  }

  lemma FirstIs(list: seq<Seg>, end: int, k: nat)
    requires k <= |list| && (forall j | 0 <= j < k :: list[j].start < end) && (k < |list| ==> list[k].start >= end)
    ensures First(list, end) == k
  {
  }

  lemma {:induction false} InSequenceAt(list: seq<Seg>, k: nat)
    requires 1 <= k <= |list| && (k < |list| ==> list[k - 1].end < list[k].start)
    requires forall i | 0 <= i < k - 1 :: list[i].end >= list[i + 1].start
    ensures InSequence(list) == k
  {
    if k > 1 {
      assert list[0].end >= list[0 + 1].start;
      var rest := list[1..];
      forall i | 0 <= i < k - 2 ensures rest[i].end >= rest[i + 1].start {
        assert list[i + 1].end >= list[i + 1 + 1].start;
      }
      InSequenceAt(rest, k - 1);
    }
  }

  class Receiver {
    var rcvNxt: int
    var head: SegInfo?
    var tail: SegInfo?
    ghost var nodes: seq<SegInfo>
    ghost var list: seq<Seg>
    ghost var repr: set<SegInfo>

    /** The list is well formed in both directions. */
    ghost predicate Valid()
      reads `head, `tail, `nodes, `list, `repr, repr
    {
      && (forall i | 0 <= i < |nodes| :: nodes[i] in repr)
      && Carry(nodes, list) && Distinct(nodes) && Linked(nodes)
      && head == At(nodes, 0) && tail == At(nodes, |nodes| - 1)
    }

    ghost function View(): State
      reads `rcvNxt, `list
    {
      State(rcvNxt, list)
    }

    constructor (init: int)
      ensures Valid() && View() == State(init, []) && repr == {}
    {
      rcvNxt, head, tail, nodes, list, repr := init, null, null, [], [], {};
    }

    /** clear() */
    method Clear()
      requires Valid()
      modifies this`head, this`tail, this`nodes, this`list
      ensures Valid() && View() == State(old(rcvNxt), [])
    {
      ghost var k := 0;
      var p := head;
      while p != null
        invariant k <= |nodes| && p == At(nodes, k)
        decreases |nodes| - k
      {
        assert LinkOk(nodes, k);
        p := p.next;
        k := k + 1;
      }
      head, tail, nodes, list := null, null, [], [];
    }

    method LinkHead(n: SegInfo)
      requires Valid() && nodes != [] && n !in nodes
      modifies this`head, this`nodes, this`list, this`repr, repr, n
      ensures Valid() && list == InsertAt(old(list), 0, n.seg) && repr == old(repr) + {n}
    {
      ghost var was := nodes;
      DistinctInsert(was, 0, n);
      assert LinkOk(was, 0);
      n.next := head;
      n.prev := null;
      head.prev := n;
      head := n;
      nodes, list, repr := InsertAt(was, 0, n), InsertAt(list, 0, n.seg), repr + {n};
      forall i: nat | i < |nodes| ensures LinkOk(nodes, i) {
        if i > 0 {
          assert nodes[i] == was[i - 1] && old(LinkOk(was, i - 1));
        }
      }
    }

    method Splice(p: SegInfo, n: SegInfo)
      requires p != n && p.next != p && p.next != n
      modifies p`next, n, (if p.next != null then {p.next} else {})
      ensures n.next == old(p.next) && n.prev == p && p.next == n
      ensures old(p.next) != null ==> old(p.next).prev == n && old(p.next).next == old(p.next.next)
    {
      n.next := p.next;
      if p.next != null {
        p.next.prev := n;
      }
      p.next := n;
      n.prev := p;
    }

    method LinkAfter(p: SegInfo, n: SegInfo, ghost k: nat)
      requires Valid() && 0 < k <= |nodes| && p == nodes[k - 1] && n !in nodes
      modifies this`tail, this`nodes, this`list, this`repr, repr, n
      ensures Valid() && list == InsertAt(old(list), k, n.seg) && repr == old(repr) + {n}
    {
      assert LinkOk(nodes, k - 1);
      Splice(p, n);
      if p == tail {
        tail := n;
      }
      forall i: nat | i < |nodes| ensures Around(nodes, k, n, i) {
        assert old(LinkOk(nodes, i));
      }
      Enlist(n, k);
    }

    /** The ghost side of LinkAfter. */
    ghost method Enlist(n: SegInfo, k: nat)
      requires 0 < k <= |nodes| && n !in nodes && Carry(nodes, list) && Distinct(nodes)
      requires forall i | 0 <= i < |nodes| :: nodes[i] in repr
      requires forall i: nat | i < |nodes| :: Around(nodes, k, n, i)
      requires n.next == At(nodes, k) && n.prev == nodes[k - 1]
      requires head == nodes[0] && tail == if k == |nodes| then n else nodes[|nodes| - 1]
      modifies this`nodes, this`list, this`repr
      ensures Valid() && list == InsertAt(old(list), k, n.seg) && repr == old(repr) + {n}
    {
      ghost var was := nodes;
      DistinctInsert(was, k, n);
      nodes, list, repr := InsertAt(was, k, n), InsertAt(list, k, n.seg), repr + {n};
      forall i: nat | i < |nodes| ensures LinkOk(nodes, i) {
        assert nodes[i] == if i < k then was[i] else if i == k then n else was[i - 1];
        assert i != k ==> Around(was, k, n, if i < k then i else i - 1);
      }
    }

    /** The search in add for the segment after the new one; p is the one before, if any. */
    method FindPlace(start: int, end: int, ghost n: Seg) returns (p: SegInfo?, ghost k: nat)
      requires Valid() && nodes != [] && n.start == start && n.end == end
      ensures k == Place(list, n) && k <= |nodes| && p == At(nodes, k - 1)
    {
      if tail.seg.end <= start {
        return tail, |nodes|;
      }
      var q := head;
      k := 0;
      while q != null && end > q.seg.start
        invariant k <= |nodes| && q == At(nodes, k)
        invariant forall j | 0 <= j < k :: nodes[j].seg.start < end
        decreases |nodes| - k
      {
        assert LinkOk(nodes, k);
        q := q.next;
        k := k + 1;
      }
      FirstIs(list, end, k);
      if q == null {
        p := tail;
      } else {
        assert LinkOk(nodes, k);
        p := q.prev;
      }
    }

    /** The first part of add: the segment goes into the list. */
    method Enter(start: int, end: int, push: bool)
      requires Valid()
      modifies this`head, this`tail, this`nodes, this`list, this`repr, repr
      ensures Valid() && fresh(repr - old(repr)) && nodes != [] && list == Insert(old(list), Seg(start, end, push))
    {
      var n := new SegInfo(Seg(start, end, push));
      if head == null {
        head, tail, nodes, list, repr := n, n, [n], [n.seg], repr + {n};
        assert LinkOk(nodes, 0);
      } else {
        var p, k := FindPlace(start, end, n.seg);
        if p == null {
          LinkHead(n);
        } else {
          LinkAfter(p, n, k);
        }
      }
    }

    /** Takes the head off the list. */
    method Unlink()
      requires Valid() && nodes != []
      modifies this`head, this`tail, this`nodes, this`list, repr
      ensures Valid() && list == old(list)[1..] 
    {
      ghost var was := nodes;
      assert LinkOk(was, 0);
      var q := head;
      assert q.prev == null;
      head := q.next;
      if q.next != null {
        q.next.prev := q.prev;
      } else {
        tail := q.prev;
      }
      nodes, list := was[1..], list[1..];
      forall i: nat | i < |nodes| ensures LinkOk(nodes, i) {
        assert nodes[i] == was[i + 1] && old(LinkOk(was, i + 1));
      }
    }

    /** One turn of the loop in add: the head, l[j], is taken in; `more` says that the next one follows on it. */
    method TakeHead(push: bool, ghost l: seq<Seg>, ghost j: nat) returns (push': bool, more: bool)
      requires Valid() && j < |l| && list == l[j..] && Taken(l, j, rcvNxt, push)
      requires j > 0 ==> l[j - 1].end >= l[j].start
      modifies this`head, this`tail, this`nodes, this`list, this`rcvNxt, repr
      ensures Valid() && list == l[j + 1..] && Taken(l, j + 1, rcvNxt, push')
      ensures more <==> j + 1 < |l| && l[j].end >= l[j + 1].start
    {
      var p := head;
      assert p.seg == list[0] == l[j];
      TakenMore(l, j, rcvNxt, push);
      rcvNxt := p.seg.end;
      push' := push || p.seg.push;
      Unlink();
      assert list == l[j..][1..];
      more := head != null && p.seg.end >= head.seg.start;
    }

    /** The second part of add: takes in what is in sequence. */
    method Drain() returns (push: bool)
      requires Valid() && nodes != []
      modifies this`head, this`tail, this`nodes, this`list, this`rcvNxt, repr
      ensures Valid()
      ensures var l := old(list); var k := InSequence(l);
              View() == State(l[k - 1].end, l[k..]) && push == Pushed(l[..k])
    {
      ghost var l := list;
      ghost var j := 1;
      var more;
      push, more := TakeHead(false, l, 0);
      while more
        invariant 1 <= j <= |l| && Valid() && list == l[j..] && Taken(l, j, rcvNxt, push)
        invariant more <==> j < |l| && l[j - 1].end >= l[j].start
        decreases |l| - j
      {
        push, more := TakeHead(push, l, j);
        j := j + 1;
      }
      AllTaken(l, j, rcvNxt, push);
    }

    /** add(): the whole of it is the specification's Add. */
    method Add(start: int, end: int, push: bool) returns (pushed: bool)
      requires Valid()
      modifies this, repr
      ensures Valid() && fresh(repr - old(repr))
              && (View(), pushed) == BayReassembly.Add(old(View()), Seg(start, end, push))
    {
      ghost var s := View();
      Enter(start, end, push);
      ghost var l := list;
      assert head.seg == l[0];
      if head.seg.start > rcvNxt {
        AddBeyond(s, Seg(start, end, push), l);
        return false;
      }
      pushed := Drain();
      AddTakesIn(s, Seg(start, end, push), l);
    }

    /** The data part of recv for a segment without FIN. */
    method Recv(start: int, end: int, push: bool) returns (ackNow: bool, upcall: bool)
      requires Valid() && start <= end
      modifies this, repr
      ensures Valid() && fresh(repr - old(repr))
      ensures (View(), Reaction(ackNow, upcall)) == BayReassembly.Recv(old(View()), Seg(start, end, push))
    {
      ghost var s := View();
      upcall := false;
      var size := end - start;
      var seqno, datalen;
      seqno, datalen, ackNow := Trim(start, size);
      if datalen > 0 {
        RecvTakesIn(s, start, end, push, seqno, datalen, size);
        ackNow, upcall := TakeIn(seqno, datalen, size, push);
      } else {
        RecvIgnores(s, start, end, push, ackNow);
      }
    }

    /** Cuts off the front of a segment what was received before. */
    method Trim(start: int, size: nat) returns (seqno: int, datalen: nat, ackNow: bool)
      ensures datalen == 0 <==> start + size <= rcvNxt || size == 0
      ensures datalen > 0 ==> seqno == (if start < rcvNxt then rcvNxt else start) && datalen == start + size - seqno
      ensures ackNow <==> start < rcvNxt && start + size <= rcvNxt
    {
      ackNow := false;
      seqno, datalen := start, size;
      var todrop := rcvNxt - seqno;
      if todrop > 0 {
        if todrop >= datalen {
          ackNow := true;
          todrop := datalen;
        }
        seqno := seqno + todrop;
        datalen := datalen - todrop;
      }
    }

    /** What is new of a segment, datalen bytes from seqno on, goes to the application or into the queue. */
    method TakeIn(seqno: int, datalen: int, size: int, push: bool) returns (ackNow: bool, upcall: bool)
      requires Valid()
      modifies this, repr
      ensures Valid() && fresh(repr - old(repr))
      ensures (View(), Reaction(ackNow, upcall)) == TakenIn(old(View()), seqno, datalen, size, push)
    {
      ghost var s := View();
      if seqno == rcvNxt && head == null {
        assert s.list == [];
        rcvNxt := rcvNxt + datalen;
        ackNow, upcall := false, push;
      } else {
        assert s.list != [] || seqno != s.rcvNxt;
        upcall := Add(seqno, seqno + size, push);
        ackNow := !upcall;
        QueuedIs(s, seqno, datalen, size, push);
      }
    }
  }

  lemma RecvTakesIn(s: State, start: int, end: int, push: bool, seqno: int, datalen: int, size: int)
    requires start < end && end > s.rcvNxt && size == end - start
    requires seqno == (if start < s.rcvNxt then s.rcvNxt else start) && datalen == end - seqno
    ensures Recv(s, Seg(start, end, push)) == TakenIn(s, seqno, datalen, size, push)
  {
    var n, m := Seg(start, end, push), Seg(seqno, seqno + size, push);
    if seqno == s.rcvNxt && s.list == [] {
      RecvDirect(s, n);
    } else if start < s.rcvNxt {
      RecvTrimmed(s, n, m);
      QueuedIs(s, seqno, datalen, size, push);
    } else {
      assert m == n;
      RecvUntrimmed(s, n);
      QueuedIs(s, seqno, datalen, size, push);
    }
  }

  lemma RecvIgnores(s: State, start: int, end: int, push: bool, ackNow: bool)
    requires start <= end && (end <= s.rcvNxt || start == end)
    requires ackNow == (start < s.rcvNxt && end <= s.rcvNxt)
    ensures Recv(s, Seg(start, end, push)) == (s, Reaction(ackNow, false))
  {
  }

  lemma AddTakesIn(s: State, n: Seg, l: seq<Seg>)
    requires l == Insert(s.list, n) && l[0].start <= s.rcvNxt
    ensures Add(s, n) == (State(l[InSequence(l) - 1].end, l[InSequence(l)..]), Pushed(l[..InSequence(l)]))
  {
  }

  /** The first j segments have been taken in, with no hole between them. */
  ghost predicate Taken(l: seq<Seg>, j: nat, rcvNxt: int, push: bool) {
    && j <= |l| && push == Pushed(l[..j])
    && (j > 0 ==> rcvNxt == l[j - 1].end)
    && forall i | 0 <= i < j - 1 :: l[i].end >= l[i + 1].start
  }

  lemma TakenMore(l: seq<Seg>, j: nat, rcvNxt: int, push: bool)
    requires Taken(l, j, rcvNxt, push) && j < |l| && (j > 0 ==> l[j - 1].end >= l[j].start)
    ensures Taken(l, j + 1, l[j].end, push || l[j].push)
  {
    PushedMore(l[..j], l[j]);
    assert l[..j + 1] == l[..j] + [l[j]];
  }

  lemma AllTaken(l: seq<Seg>, j: nat, rcvNxt: int, push: bool)
    requires Taken(l, j, rcvNxt, push) && j > 0 && (j < |l| ==> l[j - 1].end < l[j].start)
    ensures InSequence(l) == j && rcvNxt == l[j - 1].end && push == Pushed(l[..j])
  {
    InSequenceAt(l, j);
  }

  lemma PushedMore(list: seq<Seg>, n: Seg)
    ensures Pushed(list + [n]) == (Pushed(list) || n.push)
  {
    if Pushed(list) {
      var i :| 0 <= i < |list| && list[i].push;
      assert (list + [n])[i].push;
    }
    assert (list + [n])[|list|] == n;
  }
}
