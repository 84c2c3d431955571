// The send buffer as the linked list it is, with its length kept beside it (ns-2.35/aodv/aodv_rqueue.cc).
module AodvRqueue {
  import opened Common
  import opened AodvSendBuffer

  class Cell {
    var next: Cell?
    const pkt: Queued

    constructor (pkt: Queued)
      ensures this.pkt == pkt && next == null
    {
      this.pkt, next := pkt, null;
    }
  }

  ghost function At(cells: seq<Cell>, i: int): Cell? {
    if 0 <= i < |cells| then cells[i] else null
  }

  ghost predicate NextOk(cells: seq<Cell>, i: nat)
    requires i < |cells|
    reads cells[i]
  {
    cells[i].next == At(cells, i + 1)
  }

  /** The link of the cell at position i passes over the one at position k. */
  ghost predicate NextPast(cells: seq<Cell>, k: nat, i: nat)
    requires i < |cells|
    reads cells[i]
  {
    cells[i].next == At(cells, if i + 1 == k then i + 2 else i + 1)
  }

  lemma FirstForIs(buf: seq<Queued>, dst: nat, k: nat)
    requires k <= |buf| && (forall j | 0 <= j < k :: buf[j].dst != dst) && (k < |buf| ==> buf[k].dst == dst)
    ensures FirstFor(buf, dst) == k
  {
  }

  /** Taking an expired packet out does not change what the purge leaves. */
  lemma {:induction false} PurgedWithout(buf: seq<Queued>, k: nat, now: real)
    requires k < |buf| && buf[k].ts < now
    ensures Purged(Without(buf, k), now) == Purged(buf, now)
  {
    if k == 0 {
      assert Without(buf, 0) == buf[1..];
    } else {
      PurgedWithout(buf[1..], k - 1, now);
      assert Without(buf, k)[1..] == Without(buf[1..], k - 1);
    }
  }

  class Rqueue {
    var head: Cell?
    var tail: Cell?
    var len: int
    ghost var cells: seq<Cell>
    ghost var buf: seq<Queued>
    ghost var repr: set<Cell>

    ghost predicate Valid()
      reads this, repr
    {
      && |cells| == |buf| == len
      && (forall i | 0 <= i < |cells| :: cells[i] in repr && cells[i].pkt == buf[i])
      && (forall i, j | 0 <= i < j < |cells| :: cells[i] != cells[j])
      && (forall i: nat | i < |cells| :: NextOk(cells, i))
      && head == At(cells, 0) && tail == At(cells, |cells| - 1)
    }

    constructor ()
      ensures Valid() && buf == [] && repr == {}
    {
      head, tail, len := null, null, 0;
      cells, buf, repr := [], [], {};
    }

    /** verifyQueue(): its two assertions hold. */
    method VerifyQueue()
      requires Valid()
    {
      var cnt := 0;
      var p, prev: Cell? := head, null;
      while p != null
        invariant 0 <= cnt <= |cells| && p == At(cells, cnt) && prev == At(cells, cnt - 1)
        decreases |cells| - cnt
      {
        assert NextOk(cells, cnt);
        cnt := cnt + 1;
        prev := p;
        p := p.next;
      }
      assert cnt == len;
      assert prev == tail;
    }

    method RemoveHead() returns (p: Cell?)
      requires Valid()
      modifies this
      ensures Valid() && repr == old(repr) && p == old(head)
      ensures buf == if old(buf) == [] then [] else old(buf)[1..]
    {
      p := head;
      if p != null {
        assert NextOk(cells, 0);
      }
      if head == tail {
        head, tail := null, null;
      } else {
        head := head.next;
      }
      if p != null {
        len := len - 1;
        ghost var was := cells;
        cells, buf := cells[1..], buf[1..];
        forall i: nat | i < |cells| ensures NextOk(cells, i) {
          assert NextOk(was, i + 1);
        }
      }
    }

    /** Takes p, the cell behind prev, out of the list. */
    method Unlink(p: Cell, prev: Cell?, ghost k: nat)
      requires Valid() && k < |cells| && p == cells[k] && prev == At(cells, k - 1)
      modifies this, repr
      ensures Valid() && repr == old(repr) && buf == Without(old(buf), k)
    {
      if p == head {
        var q := RemoveHead();
        assert Without(old(buf), 0) == old(buf)[1..];
      } else {
        assert NextOk(cells, k);
        if p == tail {
          prev.next := null;
          tail := prev;
        } else {
          prev.next := p.next;
        }
        len := len - 1;
        forall i: nat | i < |cells| && i != k ensures NextPast(cells, k, i) {
          assert old(NextOk(cells, i));
        }
        Close(k);
      }
    }

    /** The ghost side of taking out a cell that is not the head. */
    ghost method Close(k: nat)
      requires 0 < k < |cells| == |buf| && len == |cells| - 1
      requires forall i | 0 <= i < |cells| :: cells[i] in repr && cells[i].pkt == buf[i]
      requires forall i, j | 0 <= i < j < |cells| :: cells[i] != cells[j]
      requires forall i: nat | i < |cells| && i != k :: NextPast(cells, k, i)
      requires head == cells[0] && tail == if k == |cells| - 1 then cells[k - 1] else cells[|cells| - 1]
      modifies `cells, `buf
      ensures Valid() && buf == Without(old(buf), k)
    {
      ghost var was := cells;
      cells, buf := was[..k] + was[k + 1..], Without(buf, k);
      forall i: nat | i < |cells| ensures NextOk(cells, i) {
        assert cells[i] == if i < k then was[i] else was[i + 1];
        assert NextPast(was, k, if i < k then i else i + 1);
      }
    }

    method FindPacketWithDst(dst: nat) returns (p: Cell?, prev: Cell?, ghost k: nat)
      requires Valid()
      ensures k == FirstFor(buf, dst) && k <= |cells| && p == At(cells, k) && prev == At(cells, k - 1)
    {
      p, prev, k := head, null, 0;
      while p != null
        invariant k <= |cells| && p == At(cells, k) && prev == At(cells, k - 1)
        invariant forall j | 0 <= j < k :: buf[j].dst != dst
        decreases |cells| - k
      {
        if p.pkt.dst == dst {
          break;
        }
        assert NextOk(cells, k);
        prev := p;
        p := p.next;
        k := k + 1;
      }
      FirstForIs(buf, dst, k);
    }

    method FindAgedPacket(now: real) returns (found: bool, p: Cell?, prev: Cell?, ghost k: nat)
      requires Valid()
      ensures k <= |cells| && p == At(cells, k) && prev == At(cells, k - 1)
      ensures found <==> k < |cells|
      ensures forall j | 0 <= j < k :: buf[j].ts >= now
      ensures found ==> buf[k].ts < now
    {
      p, prev, k := head, null, 0;
      while p != null
        invariant k <= |cells| && p == At(cells, k) && prev == At(cells, k - 1)
        invariant forall j | 0 <= j < k :: buf[j].ts >= now
        decreases |cells| - k
      {
        if p.pkt.ts < now {
          found := true;
          return;
        }
        assert NextOk(cells, k);
        prev := p;
        p := p.next;
        k := k + 1;
      }
      found := false;
    }

    /** Starts over from the head after each packet it takes out. */
    method Purge(now: real)
      requires Valid()
      modifies this, repr
      ensures Valid() && repr == old(repr) && buf == Purged(old(buf), now)
    {
      var found, p, prev, k := FindAgedPacket(now);
      while found
        invariant Valid() && repr == old(repr) && Purged(buf, now) == Purged(old(buf), now)
        invariant 0 <= k <= |cells| && p == At(cells, k) && prev == At(cells, k - 1)
        invariant found <==> k < |cells|
        invariant forall j | 0 <= j < k :: buf[j].ts >= now
        invariant found ==> buf[k].ts < now
        decreases |buf|, found
      {
        PurgedWithout(buf, k, now);
        Unlink(p, prev, k);
        found, p, prev, k := FindAgedPacket(now);
      }
      AliveStays(buf, now);
    }

    method Enque(id: nat, dst: nat, now: real) returns (dropped: Option<Queued>)
      requires Valid() && |buf| <= LIMIT
      modifies this, repr
      ensures Valid() && fresh(repr - old(repr))
      ensures buf == AodvSendBuffer.Enque(old(buf), id, dst, now)
      ensures dropped == if |Purged(old(buf), now)| == LIMIT then Some(Purged(old(buf), now)[0]) else None
    {
      Purge(now);
      var p := new Cell(Queued(id, dst, now + TIMEOUT));
      dropped := None;
      if len == LIMIT {
        var p0 := RemoveHead();
        dropped := Some(p0.pkt);
      }
      Link(p);
    }

    /** The end of enque: p becomes the last cell. */
    method Link(p: Cell)
      requires Valid() && p !in repr && p.next == null
      modifies this, repr
      ensures Valid() && repr == old(repr) + {p} && buf == old(buf) + [p.pkt]
    {
      ghost var was := cells;
      if |was| > 0 {
        assert NextOk(was, |was| - 1);
      }
      if head == null {
        head, tail := p, p;
      } else {
        tail.next := p;
        tail := p;
      }
      len := len + 1;
      cells, buf, repr := was + [p], buf + [p.pkt], repr + {p};
      forall i: nat | i < |cells| ensures NextOk(cells, i) {
        if i < |was| {
          assert old(NextOk(was, i));
        }
      }
    }

    method Deque(now: real) returns (p: Cell?)
      requires Valid()
      modifies this, repr
      ensures Valid() && repr == old(repr)
      ensures (buf, if p == null then None else Some(p.pkt)) == AodvSendBuffer.Deque(old(buf), now)
    {
      Purge(now);
      p := RemoveHead();
    }

    method DequeFor(dst: nat, now: real) returns (p: Cell?)
      requires Valid()
      modifies this, repr
      ensures Valid() && repr == old(repr)
      ensures (buf, if p == null then None else Some(p.pkt)) == AodvSendBuffer.DequeFor(old(buf), dst, now)
    {
      Purge(now);
      var prev;
      ghost var k;
      p, prev, k := FindPacketWithDst(dst);
      if p != null {
        Unlink(p, prev, k);
      }
    }

    method Find(dst: nat) returns (found: bool)
      requires Valid()
      ensures found <==> exists i :: 0 <= i < |buf| && buf[i].dst == dst
    {
      var p, prev, k := FindPacketWithDst(dst);
      found := p != null;
    }
  }
}
