// The flowlet table of a CONGA leaf: which port packets get, with ticks of the ageing timer in between
// (ns-2.35/apps/conga.cc).
module CongaFlowlets {
  import opened Common

  datatype Entry = Entry(port: nat, valid: bool, age: bool)

  const Fresh := Entry(0, false, true)

  /** The period of the ageing timer (T_FL), 5E-5 in the source. */
  const T_FL := 0.00005

  /** A packet of this table entry, with the best port at the time; or the timer. */
  datatype Event = Packet(at: real, best: nat) | Tick(at: real)

  /** The port of a packet: the one of the entry while it is valid, else the best one. */
  function PortOf(e: Entry, best: nat): nat {
    if e.valid then e.port else best
  }

  function Touch(e: Entry, best: nat): Entry {
    Entry(PortOf(e, best), true, false)
  }

  function Age(e: Entry): Entry {
    if e.age && e.valid then Entry(0, false, true) else Entry(e.port, e.valid, true)
  }

  /** An entry, the time of the last tick, and the time of the last event. */
  datatype State = State(entry: Entry, lastTick: real, clock: real)

  const Start := State(Fresh, 0.0, 0.0)

  /** Ticks come every T_FL, and nothing happens later than the next tick before it. Events at the same time
      as a tick may come before or after it. */
  predicate Allowed(s: State, e: Event) {
    && s.clock <= e.at
    && match e
       case Packet(at, _) => at <= s.lastTick + T_FL
       case Tick(at) => at == s.lastTick + T_FL
  }

  function Step(s: State, e: Event): State {
    match e
    case Packet(at, best) => State(Touch(s.entry, best), s.lastTick, at)
    case Tick(at) => State(Age(s.entry), at, at)
  }

  predicate Legal(s: State, es: seq<Event>)
    decreases |es|
  {
    es == [] || (Legal(s, es[..|es| - 1]) && Allowed(After(s, es[..|es| - 1]), es[|es| - 1]))
  }

  function After(s: State, es: seq<Event>): State
    decreases |es|
  {
    if es == [] then s else Step(After(s, es[..|es| - 1]), es[|es| - 1])
  }

  /** The port that packet i of a run gets. */
  function PortAt(s: State, es: seq<Event>, i: nat): nat
    requires i < |es| && es[i].Packet?
  {
    PortOf(After(s, es[..i]).entry, es[i].best)
  }

  // ----- one flowlet -----

  ghost predicate OnlyTicks(es: seq<Event>) {
    forall i | 0 <= i < |es| :: es[i].Tick?
  }

  /** After a packet and then only ticks, the entry is as the number of ticks says. */
  lemma {:induction false} AgesWithTicks(s: State, es: seq<Event>)
    requires OnlyTicks(es) && s.entry.valid && !s.entry.age
    ensures After(s, es).entry ==
            if |es| == 0 then s.entry
            else if |es| == 1 then Entry(s.entry.port, true, true)
            else Fresh
  {
    if es != [] {
      AgesWithTicks(s, es[..|es| - 1]);
    }
  }

  /** A packet is sent where the last one went if at most one tick came in between, and to the best port if
      two or more did. */
  lemma StaysIff(s: State, e: Event, es: seq<Event>, e': Event)
    requires e.Packet? && OnlyTicks(es) && e'.Packet?
    ensures var s1 := Step(s, e);
            PortOf(After(s1, es).entry, e'.best) == if |es| < 2 then s1.entry.port else e'.best
  {
    AgesWithTicks(Step(s, e), es);
  }

  /** How many ticks come between two packets, by the time between them. */
  lemma {:induction false} TicksTake(s: State, es: seq<Event>)
    requires OnlyTicks(es) && Legal(s, es) && s.lastTick <= s.clock <= s.lastTick + T_FL
    ensures After(s, es).lastTick == s.lastTick + |es| as real * T_FL
    ensures |es| > 0 ==> After(s, es).clock == After(s, es).lastTick
    ensures |es| == 0 ==> After(s, es) == s
  {
    if es != [] {
      TicksTake(s, es[..|es| - 1]);
    }
  }

  /** Packets less than one period apart stay together, packets more than two periods apart do not. */
  lemma GapDecides(s: State, e: Event, es: seq<Event>, e': Event)
    requires Inv(s) && e.Packet? && OnlyTicks(es) && e'.Packet? && Allowed(s, e)
    requires Legal(Step(s, e), es) && Allowed(After(Step(s, e), es), e')
    ensures e'.at - e.at < T_FL ==> |es| < 2
    ensures e'.at - e.at > 2.0 * T_FL ==> |es| >= 2
  {
    var s1 := Step(s, e);
    TicksTake(s1, es);
    if |es| >= 2 {
      assert |es| as real >= 2.0;
      Multiple(|es| as real, 2.0);
    }
  }

  lemma Multiple(a: real, b: real)
    requires a >= b
    ensures a * T_FL >= b * T_FL
  {
  }

  /** At a distance of exactly two periods either can happen: here the tick at the time of the first packet
      came before it, and the one at the time of the second comes after it. */
  lemma TwoPeriodsMayStay()
    ensures var es := [Tick(T_FL), Packet(T_FL, 1), Tick(2.0 * T_FL), Packet(3.0 * T_FL, 2)];
            Legal(Start, es) && PortAt(Start, es, 1) == 1 && PortAt(Start, es, 3) == 1
  {
    var es := [Tick(T_FL), Packet(T_FL, 1), Tick(2.0 * T_FL), Packet(3.0 * T_FL, 2)];
    assert es[..3] == [Tick(T_FL), Packet(T_FL, 1), Tick(2.0 * T_FL)];
    assert es[..3][..2] == es[..2] == [Tick(T_FL), Packet(T_FL, 1)];
    assert es[..2][..1] == es[..1] == [Tick(T_FL)];
    assert es[..1][..0] == [];
    assert After(Start, es[..1]) == State(Fresh, T_FL, T_FL);
    assert After(Start, es[..2]) == State(Entry(1, true, false), T_FL, T_FL);
    assert After(Start, es[..3]) == State(Entry(1, true, true), 2.0 * T_FL, 2.0 * T_FL);
    assert Legal(Start, []) && Legal(Start, es[..1]) && Legal(Start, es[..2]) && Legal(Start, es[..3]);
  }

  // ----- whole runs -----

  ghost predicate Inv(s: State) {
    s.lastTick <= s.clock <= s.lastTick + T_FL && (!s.entry.valid ==> s.entry.port == 0 && s.entry.age)
  }

  lemma {:induction false} RunInv(s: State, es: seq<Event>)
    requires Inv(s) && Legal(s, es)
    ensures Inv(After(s, es))
  {
    if es != [] {
      RunInv(s, es[..|es| - 1]);
    }
  }

  /** A packet after the events `before`, then only ticks, then a packet that comes g later. */
  ghost predicate Gap(before: seq<Event>, e: Event, es: seq<Event>, e': Event, g: real) {
    && Legal(Start, before) && e.Packet? && Allowed(After(Start, before), e)
    && OnlyTicks(es) && Legal(Step(After(Start, before), e), es)
    && e'.Packet? && Allowed(Follow(before, e, es), e') && e'.at - e.at == g
  }

  function Follow(before: seq<Event>, e: Event, es: seq<Event>): State {
    After(Step(After(Start, before), e), es)
  }

  /** The second packet gets the port of the first. */
  predicate Stays(before: seq<Event>, e: Event, es: seq<Event>, e': Event)
    requires e'.Packet?
  {
    PortOf(Follow(before, e, es).entry, e'.best) == Step(After(Start, before), e).entry.port
  }

  /** The second packet gets the best port there is. */
  predicate Renews(before: seq<Event>, e: Event, es: seq<Event>, e': Event)
    requires e'.Packet?
  {
    PortOf(Follow(before, e, es).entry, e'.best) == e'.best
  }

  function Ticks(k: nat): seq<Event> {
    if k == 0 then [] else Ticks(k - 1) + [Tick(k as real * T_FL)]
  }

  lemma {:induction false} TicksLegal(s: State, k: nat)
    requires s.lastTick == 0.0 && s.clock <= T_FL
    ensures OnlyTicks(Ticks(k)) && |Ticks(k)| == k && Legal(s, Ticks(k))
    ensures After(s, Ticks(k)).lastTick == k as real * T_FL
    ensures k > 0 ==> After(s, Ticks(k)).clock == k as real * T_FL
    ensures k == 0 ==> After(s, Ticks(k)) == s
  {
    if k > 0 {
      TicksLegal(s, k - 1);
      assert Ticks(k)[..k - 1] == Ticks(k - 1);
    }
  }

  /** With a packet just before a tick, k more periods hold k + 1 ticks. */
  lemma GapRenews(g: real) returns (e: Event, es: seq<Event>, e': Event)
    requires g >= T_FL
    ensures Gap([], e, es, e', g) && !Stays([], e, es, e')
  {
    var k := (g / T_FL).Floor;
    assert k as real * T_FL <= g < (k as real + 1.0) * T_FL;
    assert k >= 1;
    e, es, e' := Packet(T_FL, 1), Ticks(k + 1), Packet(T_FL + g, 2);
    var s1 := Step(Start, e);
    assert After(Start, []) == Start;
    TicksLegal(s1, k + 1);
    StaysIff(Start, e, es, e');
  }

  lemma OneEvent(s: State, e: Event)
    requires Allowed(s, e)
    ensures Legal(s, [e]) && After(s, [e]) == Step(s, e)
  {
    assert [e][..0] == [];
  }

  /** With a packet just after a tick, two periods hold only one more before the tick at their end. */
  lemma GapStays(g: real) returns (before: seq<Event>, e: Event, es: seq<Event>, e': Event)
    requires 0.0 <= g <= 2.0 * T_FL
    ensures Gap(before, e, es, e', g) && !Renews(before, e, es, e')
  {
    before, e, e' := [Tick(T_FL)], Packet(T_FL, 1), Packet(T_FL + g, 2);
    es := if g <= T_FL then [] else [Tick(2.0 * T_FL)];
    OneEvent(Start, Tick(T_FL));
    if es != [] {
      OneEvent(Step(After(Start, before), e), es[0]);
    }
    StaysIff(After(Start, before), e, es, e');
  }

  /** Whatever comes before and wherever the ticks fall, a packet gets the port of the packet before it exactly if it
      follows in less than one period, and a fresh choice exactly if it comes after more than two. */
  lemma GapIff(g: real)
    requires g >= 0.0
    ensures (forall before, e, es, e' | Gap(before, e, es, e', g) :: Stays(before, e, es, e')) <==> g < T_FL
    ensures (forall before, e, es, e' | Gap(before, e, es, e', g) :: Renews(before, e, es, e')) <==> g > 2.0 * T_FL
  {
    forall before, e, es, e' | Gap(before, e, es, e', g)
      ensures (g < T_FL ==> Stays(before, e, es, e')) && (g > 2.0 * T_FL ==> Renews(before, e, es, e'))
    {
      RunInv(Start, before);
      GapDecides(After(Start, before), e, es, e');
      StaysIff(After(Start, before), e, es, e');
    }
    if g >= T_FL {
      var e, es, e' := GapRenews(g);
    }
    if g <= 2.0 * T_FL {
      var before, e, es, e' := GapStays(g);
    }
  }

  /** The time of the last packet of a run, if it has one. */
  function LastPacket(es: seq<Event>): (t: real)
    requires es != [] && es[0].Packet?
  {
    if es[|es| - 1].Packet? then es[|es| - 1].at else LastPacket(es[..|es| - 1])
  }

  /** Each packet comes less than a period after the packet before it. */
  ghost predicate Dense(es: seq<Event>)
    requires es != [] && es[0].Packet?
  {
    forall i | 0 < i < |es| && es[i].Packet? :: es[i].at - LastPacket(es[..i]) < T_FL
  }

  /** The entry still has the port, or the last packet is too long ago for another one to follow closely. */
  ghost predicate Sticks(s: State, port: nat, last: real) {
    || s.clock >= last + T_FL
    || (s.entry.valid && s.entry.port == port && last <= s.clock && (s.entry.age ==> s.lastTick >= last))
  }

  lemma {:induction false} DenseSticks(s: State, es: seq<Event>)
    requires Inv(s) && es != [] && es[0].Packet? && Legal(s, es) && Dense(es)
    ensures Sticks(After(s, es), PortAt(s, es, 0), LastPacket(es))
    ensures forall i | 0 <= i < |es| && es[i].Packet? :: PortAt(s, es, i) == PortAt(s, es, 0)
  {
    var n := |es| - 1;
    var front := es[..n];
    assert es[..0] == [];
    if n == 0 {
      assert front == [];
    } else {
      assert front[..0] == [];
      assert forall i | 0 <= i < n :: front[..i] == es[..i];
      assert forall i | 0 <= i < n && es[i].Packet? :: PortAt(s, front, i) == PortAt(s, es, i);
      DenseSticks(s, front);
      RunInv(s, front);
      var s1 := After(s, front);
      match es[n]
      case Packet(at, best) => assert at - LastPacket(front) < T_FL;
      case Tick(at) =>
    }
  }

  /** All packets of a run in which each comes less than a period after the one before get the same port,
      wherever the ticks fall. */
  lemma Sticky(es: seq<Event>, i: nat, j: nat)
    requires Legal(Start, es) && i <= j < |es| && es[i].Packet? && es[j].Packet? && Dense(es[i..])
    ensures PortAt(Start, es, i) == PortAt(Start, es, j)
  {
    var s := After(Start, es[..i]);
    var rest := es[i..];
    Suffix(Start, es, i);
    PrefixLegal(Start, es, i);
    RunInv(Start, es[..i]);
    DenseSticks(s, rest);
    PortFrom(Start, es, i, i);
    PortFrom(Start, es, i, j);
    assert PortAt(s, rest, j - i) == PortAt(s, rest, 0);
  }

  /** The port of a packet, seen from an earlier state. */
  lemma PortFrom(s: State, es: seq<Event>, i: nat, j: nat)
    requires i <= j < |es| && es[j].Packet?
    ensures PortAt(s, es, j) == PortAt(After(s, es[..i]), es[i..], j - i)
  {
    Suffix(s, es[..j], i);
    assert es[..j][..i] == es[..i] && es[..j][i..] == es[i..][..j - i];
  }

  lemma {:induction false} Suffix(s: State, es: seq<Event>, i: nat)
    requires i <= |es|
    ensures After(s, es) == After(After(s, es[..i]), es[i..])
    ensures Legal(s, es) ==> Legal(After(s, es[..i]), es[i..])
    decreases |es|
  {
    if i == |es| {
      assert es[..i] == es && es[i..] == [];
    } else {
      var n := |es| - 1;
      Suffix(s, es[..n], i);
      assert es[..n][..i] == es[..i] && es[..n][i..] == es[i..][..n - i];
    }
  }

  lemma {:induction false} PrefixLegal(s: State, es: seq<Event>, i: nat)
    requires Legal(s, es) && i <= |es|
    ensures Legal(s, es[..i])
    decreases |es|
  {
    if i == |es| {
      assert es[..i] == es;
    } else {
      assert es[..|es| - 1][..i] == es[..i];
      PrefixLegal(s, es[..|es| - 1], i);
    }
  }

  // ----- the agent -----

  class Agent {
    const flowletTable: array<Entry>
    const congestionToLeaf: array<int>

    constructor (entries: nat, ports: nat)
      ensures flowletTable.Length == entries && congestionToLeaf.Length == ports
      ensures forall i | 0 <= i < entries :: flowletTable[i] == Fresh
    {
      flowletTable := new Entry[entries](_ => Fresh);
      congestionToLeaf := new int[ports](_ => 0);
    }

    ghost predicate LeastCongested(port: nat, maxslot: nat)
      requires port < maxslot <= congestionToLeaf.Length
      reads congestionToLeaf
    {
      forall p | 0 <= p < maxslot :: congestionToLeaf[port] <= congestionToLeaf[p]
    }

    /** findBestPath: wherever the search starts, a least congested port. */
    method FindBestPath(k: nat, maxslot: nat) returns (min: nat)
      requires k < maxslot <= congestionToLeaf.Length
      ensures min < maxslot && LeastCongested(min, maxslot)
    {
      min := k;
      for i := 0 to maxslot
        invariant min < maxslot
        invariant forall p | 0 <= p < maxslot && Offset(k, p, maxslot) < i ::
                    congestionToLeaf[min] <= congestionToLeaf[p]
      {
        var slot := (k + i) % maxslot;
        AtOffset(k, i, maxslot);
        if congestionToLeaf[slot] < congestionToLeaf[min] {
          min := slot;
        }
      }
    }

    method CheckFlowletTable(key: nat) returns (tag: int)
      requires key < flowletTable.Length
      modifies flowletTable
      ensures tag == if old(flowletTable[key]).valid then old(flowletTable[key]).port else -1
      ensures flowletTable[..] == old(flowletTable[..])[key := old(flowletTable[key]).(age := false)]
    {
      tag := -1;
      if flowletTable[key].valid {
        tag := flowletTable[key].port;
      }
      flowletTable[key] := flowletTable[key].(age := false);
    }

    /** The part of setPacket that chooses the port; a fresh choice is a least congested one. */
    method SetPacket(key: nat, k: nat, maxslot: nat) returns (port: nat)
      requires key < flowletTable.Length && k < maxslot <= congestionToLeaf.Length
      modifies flowletTable
      ensures !old(flowletTable[key]).valid ==> port < maxslot && LeastCongested(port, maxslot)
      ensures port == PortOf(old(flowletTable[key]), port)
      ensures flowletTable[..] == old(flowletTable[..])[key := Touch(old(flowletTable[key]), port)]
    {
      var tag := CheckFlowletTable(key);
      if tag == -1 {
        port := FindBestPath(k, maxslot);
        flowletTable[key] := flowletTable[key].(valid := true, port := port);
      } else {
        port := tag;
      }
    }

    method FlowletTimeout()
      modifies flowletTable
      ensures forall i | 0 <= i < flowletTable.Length :: flowletTable[i] == Age(old(flowletTable[i]))
    {
      for i := 0 to flowletTable.Length
        invariant forall j | 0 <= j < i :: flowletTable[j] == Age(old(flowletTable[j]))
        invariant forall j | i <= j < flowletTable.Length :: flowletTable[j] == old(flowletTable[j])
      {
        if flowletTable[i].age && flowletTable[i].valid {
          flowletTable[i] := flowletTable[i].(port := 0, valid := false);
        }
        flowletTable[i] := flowletTable[i].(age := true);
      }
    }
  }

  /** How many places after k, going round, port p is looked at. */
  function Offset(k: nat, p: nat, n: nat): int {
    if p >= k then p - k else p - k + n
  }

  lemma AtOffset(k: nat, i: nat, n: nat)
    requires k < n && i < n
    ensures forall p | 0 <= p < n :: Offset(k, p, n) == i <==> p == (k + i) % n
  {
    ModSmall(k + i, n);
  }
}
