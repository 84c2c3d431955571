// The two ends of a CLB tunnel in uncoded mode (BlockSize_MaxP == 0, ns-2.35/apps/clb_tunnel.cc):
// stamping with indices that wrap at 65536, and the reorder buffer, a ring of packets.
module ClbTunnel {
  import opened Common
  import opened ClbWindow

  const REORDER_GEN_NUMBER: nat := 3

  /** A packet is identified by its place in the sending order, which the code does not see. */
  datatype Packet = Packet(genIndex: nat, parity: bool, number: nat)

  /** A packet as its sender stamps it. */
  type Stamped = p: Packet | p.genIndex == p.number % M
    witness Packet(0, false, 0)

  datatype Slot = Empty | Full(pkt: Stamped)

  predicate OutOfDate(genIndex: nat, expected: nat) {
    Ahead(genIndex, expected) > M / 2
  }

  function Position(head: nat, genIndex: nat, headIndex: nat, capacity: nat): int
    requires capacity > 0
  {
    ((head + genIndex - headIndex + M) % M) % capacity
  }

  // ----- when the wrapping indices are good enough -----

  /** The out-of-date test tells old packets from new ones exactly when they are less than half the
      index space old and at most half of it new. */
  lemma OutOfDateIff(n: nat, base: nat)
    requires n < base + M && base < n + M
    ensures (OutOfDate(n % M, base % M) <==> n < base) <==> base - M / 2 < n <= base + M / 2
  {
    ReadingIs(n, base);
    if n >= base {
      Remainder(0, n - base);
    } else {
      Remainder(0, base - n);
    }
  }

  lemma PositionIs(head: nat, genIndex: nat, headIndex: nat, capacity: nat)
    requires genIndex < M && headIndex < M && head < capacity && 2 * capacity <= M + 1
    requires Ahead(genIndex, headIndex) < capacity
    ensures Position(head, genIndex, headIndex, capacity) == Wrapped(head + Ahead(genIndex, headIndex), capacity)
  {
    var a := genIndex - headIndex + M;
    ModSmall(a, M);
    ModSmall(head + (if a < M then a else a - M), capacity);
  }

  /** The ring position a steps ahead, a < 2 * capacity. */
  function Wrapped(a: nat, capacity: nat): int {
    if a < capacity then a else a - capacity
  }

  /** The slot formula finds the slot that is so many places from the head, whatever the state of the ring. */
  ghost predicate Exact(capacity: nat)
    requires capacity > 0
  {
    forall head: nat, g: nat, h: nat | head < capacity && g < M && h < M && Ahead(g, h) < capacity ::
      Position(head, g, h, capacity) == Wrapped(head + Ahead(g, h), capacity)
  }

  lemma NotExact(capacity: nat)
    requires 0 < capacity != M && 2 * capacity > M + 1
    ensures !Exact(capacity)
  {
    if capacity < M {
      var top := capacity - 1;
      ModSmall(top + M, M);
      TwiceRound(top);
      ModSmall(2 * top - M, capacity);
      assert Position(top, top, 0, capacity) != Wrapped(2 * top, capacity);
    } else {
      assert Ahead(0, 0) == 0;
      assert Position(M, 0, 0, capacity) == 0;
      assert Position(M, 0, 0, capacity) != Wrapped(M, capacity);
    }
  }

  lemma TwiceRound(top: nat)
    requires M <= 2 * top < 2 * M
    ensures (2 * top + M) % M == 2 * top - M
  {
    assert 2 * top + M == 2 * M + (2 * top - M);
  }

  /** With a buffer of 3 * k slots the formula is exact if and only if k is at most 10922. */
  lemma PositionExactIff(k: nat)
    requires k >= 1
    ensures Exact(REORDER_GEN_NUMBER * k) <==> k <= 10922
  {
    var capacity := REORDER_GEN_NUMBER * k;
    if k <= 10922 {
      forall head: nat, g: nat, h: nat | head < capacity && g < M && h < M && Ahead(g, h) < capacity
        ensures Position(head, g, h, capacity) == Wrapped(head + Ahead(g, h), capacity)
      {
        PositionIs(head, g, h, capacity);
      }
    } else {
      NotExact(capacity);
    }
  }

  // ----- sending -----

  class Sender {
    var currentGenIndex: nat
    ghost var sent: nat

    ghost predicate Valid()
      reads this
    {
      currentGenIndex == sent % M
    }

    constructor ()
      ensures Valid() && sent == 0
    {
      currentGenIndex, sent := 0, 0;
    }

    /** Numbers data packets consecutively; a parity packet takes an index without using it up. */
    method SetPacket(ifParity: bool, number: nat) returns (pkt: Stamped)
      requires Valid() && number == sent
      modifies this
      ensures Valid() && sent == old(sent) + if ifParity then 0 else 1
      ensures pkt == Packet(old(sent) % M, ifParity, old(sent))
    {
      pkt := Packet(currentGenIndex, ifParity, number);
      if !ifParity {
        NextIndex(sent);
        currentGenIndex := (currentGenIndex + 1) % M;
        sent := sent + 1;
      }
    }
  }

  lemma NextIndex(n: nat)
    ensures (n % M + 1) % M == (n + 1) % M
  {
  }

  // ----- receiving -----

  class Receiver {
    const k: nat
    const buffer: array<Slot>
    var head: nat
    var count: int
    var headIndex: nat
    var expectHandOverGenIndex: nat
    var packetsUnHanded: int
    var timer: bool
    var os: seq<Handover>
    ghost var base: nat
    ghost var held: map<nat, nat>

    /** The number of the packet that ring position i is for. */
    ghost function NumberAt(i: nat): int
      reads `base, `head
    {
      base + if i >= head then i - head else i - head + buffer.Length
    }

    ghost predicate Holds(i: nat)
      requires i < buffer.Length
      reads `base, `head, `held, buffer
    {
      if NumberAt(i) in held then
        buffer[i].Full? && !buffer[i].pkt.parity && buffer[i].pkt.number == held[NumberAt(i)]
      else
        buffer[i] == Empty
    }

    /** Each ring position is empty or has the packet with the index that belongs there, both counters count
        them, and the next index to hand over is that of the head. */
    ghost predicate Valid()
      reads this, buffer
    {
      && k >= 1 && buffer.Length == REORDER_GEN_NUMBER * k && 2 * buffer.Length <= M + 1
      && head < buffer.Length
      && headIndex == expectHandOverGenIndex == base % M
      && count == packetsUnHanded == |held|
      && (forall n | n in held :: base <= n < base + buffer.Length)
      && (forall i: nat | i < buffer.Length :: Holds(i))
    }

    ghost function View(): Window
      reads this
    {
      Window(base, held, os, timer)
    }

    constructor (k: nat)
      requires 1 <= k <= MAX_K
      ensures Valid() && this.k == k && View() == Start && fresh(buffer)
    {
      this.k := k;
      buffer := new Slot[REORDER_GEN_NUMBER * k](_ => Empty);
      head, count, headIndex, expectHandOverGenIndex, packetsUnHanded := 0, 0, 0, 0, 0;
      timer, os, base, held := false, [], 0, map[];
    }

    /** The slot that the code finds for a packet whose index is that far ahead. */
    lemma SlotFor(n: nat)
      requires Valid() && Reading(n, base) < buffer.Length
      ensures var i := Position(head, n % M, headIndex, buffer.Length);
              0 <= i < buffer.Length && NumberAt(i) == Place(n, base) && Holds(i)
              && forall j: nat | j < buffer.Length && j != i :: NumberAt(j) != Place(n, base)
    {
      PositionIs(head, n % M, headIndex, buffer.Length);
    }

    /** The end of insertReorderBuffer: the packet goes to an empty position. */
    method Store(i: nat, pkt: Stamped)
      requires Valid() && !pkt.parity && i < buffer.Length && buffer[i] == Empty
      modifies this`held, this`count, this`packetsUnHanded, buffer
      ensures Valid() && held == old(held)[NumberAt(i) := pkt.number]
    {
      assert Holds(i);
      buffer[i] := Full(pkt);
      count := count + 1;
      packetsUnHanded := packetsUnHanded + 1;
      held := held[NumberAt(i) := pkt.number];
      forall j: nat | j < buffer.Length ensures Holds(j) {
        assert old(Holds(j));
        assert j != i ==> NumberAt(j) != NumberAt(i);
      }
    }

    /** insertReorderBuffer. Both error exits are outcomes; the packet goes to the place its index tells, be it
        right or wrong. */
    method InsertReorderBuffer(pkt: Stamped) returns (fate: Fate)
      requires Valid() && !pkt.parity
      modifies this, buffer
      ensures Valid() && fate == FateOf(old(View()), pkt.number, buffer.Length)
      ensures View() == if fate == Fine then Put(old(View()), pkt.number) else old(View())
    {
      if Ahead(pkt.genIndex, expectHandOverGenIndex) > M / 2 {
        os := os + [Late(pkt.number)];
        return Fine;
      }
      var headOffset := Ahead(pkt.genIndex, headIndex);
      if headOffset >= buffer.Length {
        return Overflow;
      }
      SlotFor(pkt.number);
      var insertPos := Position(head, pkt.genIndex, headIndex, buffer.Length);
      if buffer[insertPos] != Empty {
        return Occupied;
      }
      Store(insertPos, pkt);
      fate := Fine;
    }

    /** The head of the ring moves past a position that has nothing (any more). */
    method Advance()
      requires k >= 1 && buffer.Length == REORDER_GEN_NUMBER * k && 2 * buffer.Length <= M + 1
      requires head < buffer.Length && headIndex == base % M && base !in held
      requires expectHandOverGenIndex == (base + 1) % M
      requires count == packetsUnHanded == |held|
      requires (forall n | n in held :: base <= n < base + buffer.Length)
      requires (forall i: nat | i < buffer.Length :: Holds(i))
      modifies this`head, this`headIndex, this`base
      ensures Valid() && base == old(base) + 1
    {
      ModSmall(head + 1, buffer.Length);
      NextIndex(base);
      ghost var was := head;
      head := (head + 1) % buffer.Length;
      headIndex := (headIndex + 1) % M;
      base := base + 1;
      forall i: nat | i < buffer.Length ensures Holds(i) {
        assert old(Holds(i));
        assert if i == was then NumberAt(i) == old(NumberAt(i)) + buffer.Length else NumberAt(i) == old(NumberAt(i));
      }
    }

    /** The part of checkReorderBuffer that hands over the packet expected. */
    method HandOverHead(expectPos: nat)
      requires Valid() && expectPos < buffer.Length && NumberAt(expectPos) == base && buffer[expectPos] != Empty
      modifies this, buffer
      ensures Valid() && old(base in held) && View() == HandOne(old(View()))
    {
      assert Holds(expectPos) && old(Holds(expectPos));
      var pkt := buffer[expectPos].pkt;
      assert !pkt.parity;
      packetsUnHanded := packetsUnHanded - 1;
      os := os + [InOrder(pkt.number)];
      NextIndex(base);
      expectHandOverGenIndex := (expectHandOverGenIndex + 1) % M;
      buffer[expectPos] := Empty;
      count := count - 1;
      held := held - {base};
      forall i: nat | i < buffer.Length ensures Holds(i) {
        assert old(Holds(i)) && NumberAt(i) == old(NumberAt(i));
        assert i != expectPos ==> NumberAt(i) != base;
      }
      Advance();
    }

    /** checkReorderBuffer: hands over what is in sequence; its error exits cannot be reached. */
    method CheckReorderBuffer()
      requires Valid()
      modifies this, buffer
      ensures Valid() && View() == HandOver(old(View()))
      decreases |held|
    {
      assert packetsUnHanded >= 0;
      if packetsUnHanded == 0 {
        timer := false;
        return;
      }
      ReadingIs(base, base);
      SlotFor(base);
      var expectPos := Position(head, expectHandOverGenIndex, headIndex, buffer.Length);
      assert 0 <= expectPos < buffer.Length;
      if buffer[expectPos] == Empty {
        timer := true;
        return;
      }
      HandOverHead(expectPos);
      CheckReorderBuffer();
    }

    /** decode: takes a packet out of the tunnel, and whatever is now in sequence with it. */
    method Decode(pkt: Stamped) returns (fate: Fate)
      requires Valid() && !pkt.parity
      modifies this, buffer
      ensures Valid() && fate == FateOf(old(View()), pkt.number, REORDER_GEN_NUMBER * k)
      ensures View() == if fate == Fine then Step(old(View()), Arrival(pkt.number), k) else old(View())
    {
      fate := InsertReorderBuffer(pkt);
      if fate == Fine {
        CheckReorderBuffer();
      }
    }

    /** decodeTimeout; the "NCLB timeout" error exit cannot be reached. */
    method DecodeTimeout()
      requires Valid()
      modifies this, buffer
      ensures Valid() && View() == Expire(old(View()), k)
    {
      timer := false;
      assert packetsUnHanded >= 0;
      if packetsUnHanded == 0 {
        return;
      }
      ReadingIs(base, base);
      SlotFor(base);
      var expectPos := Position(head, expectHandOverGenIndex, headIndex, buffer.Length);
      assert 0 <= expectPos < buffer.Length;
      if buffer[expectPos] != Empty {
        CheckReorderBuffer();
        return;
      }
      assert headIndex == expectHandOverGenIndex && buffer[head] == Empty;
      SkipMissing();
    }

    /** The place expected next is given up. */
    method GiveUp()
      requires Valid() && base !in held
      modifies this`expectHandOverGenIndex, this`head, this`headIndex, this`base
      ensures Valid() && View() == old(View()).(base := old(base) + 1)
    {
      NextIndex(base);
      if expectHandOverGenIndex == headIndex {
        expectHandOverGenIndex := (expectHandOverGenIndex + 1) % M;
      }
      Advance();
    }

    /** The loop of decodeTimeout: on to the first packet there is, at most k places. */
    method SkipMissing()
      requires Valid()
      modifies this, buffer
      ensures Valid() && View() == Skip(old(View()), k)
    {
      for i := 0 to k
        invariant Valid()
        invariant Skip(old(View()), k) == Skip(View(), k - i)
      {
        assert Holds(head) && NumberAt(head) == base;
        if buffer[head] != Empty {
          CheckReorderBuffer();
          break;
        }
        GiveUp();
      }
    }
  }
}
