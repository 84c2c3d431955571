// The table of congestion responses of a CLB processor and the round robin over it
// (ns-2.35/clb/clb-processor-burst.cc).
module ClbResponses {
  import opened Common

  /** When each record was last updated, and the order in which records are to be returned. */
  datatype State = State(records: map<nat, real>, queue: seq<nat>)

  const Start := State(map[], [])

  /** T_VP_EXPIRE */
  const EXPIRE := 0.5

  predicate Dead(s: State, key: nat, now: real) {
    key !in s.records || now - s.records[key] > EXPIRE
  }

  function Alloc(s: State, key: nat, time: real): State {
    State(s.records[key := time], s.queue + [key])
  }

  /** A packet on a virtual path: its record is made if there is none, and updated, but by a burst packet only made. */
  function Obtain(s: State, key: nat, burst: bool, now: real): State {
    if key !in s.records then Alloc(s, key, now)
    else if burst then s
    else State(s.records[key := now], s.queue)
  }

  function Next(s: State, now: real): (State, Option<nat>)
    decreases |s.queue|
  {
    if s.queue == [] then (s, None)
    else
      var t, rest := s.queue[0], s.queue[1..];
      if Dead(s, t, now) then Next(State(s.records - {t}, rest), now)
      else (State(s.records, rest + [t]), Some(t))
  }

  /** Every record is queued exactly once, and nothing else is. */
  ghost predicate Matched(s: State) {
    && (forall i, j | 0 <= i < j < |s.queue| :: s.queue[i] != s.queue[j])
    && forall key :: key in s.records <==> key in s.queue
  }

  ghost predicate AllDead(s: State, keys: seq<nat>, now: real) {
    forall key | key in keys :: Dead(s, key, now)
  }

  ghost function Keys(queue: seq<nat>): set<nat> {
    set key | key in queue
  }

  /** What is left when the first k in the queue are gone and the next one goes behind the others. */
  ghost function Turned(s: State, k: nat): State
    requires k <= |s.queue|
  {
    State(s.records - Keys(s.queue[..k]), if k < |s.queue| then s.queue[k + 1..] + [s.queue[k]] else [])
  }

  /** What is returned is the first record that has not expired; those before it go for good, all others keep
      their order and it goes behind them. Nothing is returned only if all have expired. */
  lemma {:induction false} NextIs(s: State, now: real) returns (k: nat)
    requires Matched(s)
    ensures k <= |s.queue| && AllDead(s, s.queue[..k], now)
    ensures k < |s.queue| ==> !Dead(s, s.queue[k], now)
    ensures Next(s, now) == (Turned(s, k), if k < |s.queue| then Some(s.queue[k]) else None)
    decreases |s.queue|
  {
    if s.queue != [] && Dead(s, s.queue[0], now) {
      var s1 := State(s.records - {s.queue[0]}, s.queue[1..]);
      DropMatched(s);
      var k1 := NextIs(s1, now);
      k := k1 + 1;
      DropTurned(s, k1);
      DropDead(s, k1, now);
      assert Next(s, now) == Next(s1, now);
    } else {
      k := 0;
      TurnedNone(s);
    }
  }

  lemma TurnedNone(s: State)
    ensures Turned(s, 0) == State(s.records, if s.queue != [] then s.queue[1..] + [s.queue[0]] else [])
  {
    assert Keys(s.queue[..0]) == {};
    assert s.records - {} == s.records;
  }

  lemma DropDead(s: State, k: nat, now: real)
    requires s.queue != [] && k <= |s.queue| - 1 && Dead(s, s.queue[0], now)
    requires AllDead(State(s.records - {s.queue[0]}, s.queue[1..]), s.queue[1..][..k], now)
    requires s.queue[0] !in s.queue[1..]
    ensures AllDead(s, s.queue[..k + 1], now)
  {
    var t, rest := s.queue[0], s.queue[1..];
    assert s.queue[..k + 1] == [t] + rest[..k];
    forall key | key in s.queue[..k + 1] ensures Dead(s, key, now) {
      if key != t {
        assert key in rest[..k] && Dead(State(s.records - {t}, rest), key, now);
      }
    }
  }

  lemma DropMatched(s: State)
    requires Matched(s) && s.queue != []
    ensures Matched(State(s.records - {s.queue[0]}, s.queue[1..]))
    ensures s.queue[0] !in s.queue[1..]
  {
    assert s.queue == [s.queue[0]] + s.queue[1..];
  }

  lemma DropTurned(s: State, k: nat)
    requires s.queue != [] && k <= |s.queue| - 1
    ensures Turned(State(s.records - {s.queue[0]}, s.queue[1..]), k) == Turned(s, k + 1)
  {
    var t, rest := s.queue[0], s.queue[1..];
    assert s.queue[..k + 1] == [t] + rest[..k];
    assert Keys(s.queue[..k + 1]) == {t} + Keys(rest[..k]);
    assert (s.records - {t}) - Keys(rest[..k]) == s.records - Keys(s.queue[..k + 1]);
  }

  lemma ObtainMatched(s: State, key: nat, burst: bool, now: real)
    requires Matched(s)
    ensures Matched(Obtain(s, key, burst, now))
  {
  }

  lemma TurnedMatched(s: State, k: nat)
    requires Matched(s) && k <= |s.queue|
    ensures Matched(Turned(s, k))
  {
    var gone, stay, s' := s.queue[..k], s.queue[k..], Turned(s, k);
    assert s.queue == gone + stay;
    forall key ensures key in s'.records <==> key in s'.queue {
      if k < |s.queue| {
        assert stay == [s.queue[k]] + s.queue[k + 1..];
      }
      SplitOnce(s.queue, k, key);
    }
  }

  lemma SplitOnce(queue: seq<nat>, k: nat, key: nat)
    requires k <= |queue| && forall i, j | 0 <= i < j < |queue| :: queue[i] != queue[j]
    ensures key in queue[..k] ==> key !in queue[k..]
  {
  }

  lemma NextMatched(s: State, now: real)
    requires Matched(s)
    ensures Matched(Next(s, now).0)
  {
    var k := NextIs(s, now);
    TurnedMatched(s, k);
  }

  // ----- runs -----

  datatype Event = Packet(key: nat, burst: bool, now: real) | Send(now: real)

  function Step(s: State, e: Event): State {
    match e
    case Packet(key, burst, now) => Obtain(s, key, burst, now)
    case Send(now) => Next(s, now).0
  }

  function After(s: State, es: seq<Event>): State {
    if es == [] then s else Step(After(s, es[..|es| - 1]), es[|es| - 1])
  }

  /** The record that a Send returns after the events es. */
  function Returned(s: State, es: seq<Event>, now: real): Option<nat> {
    Next(After(s, es), now).1
  }

  lemma {:induction false} RunMatched(s: State, es: seq<Event>)
    requires Matched(s)
    ensures Matched(After(s, es))
  {
    if es != [] {
      var front := es[..|es| - 1];
      RunMatched(s, front);
      match es[|es| - 1]
      case Packet(key, burst, now) => ObtainMatched(After(s, front), key, burst, now);
      case Send(now) => NextMatched(After(s, front), now);
    }
  }

  ghost predicate Before(queue: seq<nat>, a: nat, b: nat) {
    exists i, j :: 0 <= i < j < |queue| && queue[i] == a && queue[j] == b
  }

  /** At event i of the run, key is returned. */
  ghost predicate ReturnsAt(s: State, es: seq<Event>, i: nat, key: nat)
    requires i < |es|
  {
    es[i].Send? && Returned(s, es[..i], es[i].now) == Some(key)
  }

  /** At event i of the run, the record of key has expired by the time it would be its turn. */
  ghost predicate ExpiresAt(s: State, es: seq<Event>, i: nat, key: nat)
    requires i < |es|
  {
    && es[i].Send?
    && key in After(s, es[..i]).records && es[i].now - After(s, es[..i]).records[key] > EXPIRE
    && key !in After(s, es[..i + 1]).records
  }

  /** A turn keeps two keys in their order, unless it returns or removes the first of them. */
  lemma TurnKeepsOrder(s: State, now: real, a: nat, b: nat)
    requires Matched(s) && Before(s.queue, a, b)
    ensures var (s', r) := Next(s, now);
            || r == Some(a)
            || (a in s.records && now - s.records[a] > EXPIRE && a !in s'.records)
            || (r != Some(b) && (b in s'.records ==> Before(s'.queue, a, b)))
  {
    var k := NextIs(s, now);
    var i, j :| 0 <= i < j < |s.queue| && s.queue[i] == a && s.queue[j] == b;
    assert a in s.queue;
    if i < k {
      assert a == s.queue[..k][i];
      assert Dead(s, a, now) && a in Keys(s.queue[..k]);
    } else if i > k {
      TurnedOrder(s, k, i, j);
    }
  }

  lemma TurnedOrder(s: State, k: nat, i: nat, j: nat)
    requires k < i < j < |s.queue| && Matched(s)
    ensures Before(Turned(s, k).queue, s.queue[i], s.queue[j]) && s.queue[k] != s.queue[j]
  {
    var queue := Turned(s, k).queue;
    assert queue[i - k - 1] == s.queue[i] && queue[j - k - 1] == s.queue[j];
  }

  lemma PacketKeepsOrder(s: State, key: nat, burst: bool, now: real, a: nat, b: nat)
    requires Before(s.queue, a, b)
    ensures Before(Obtain(s, key, burst, now).queue, a, b)
  {
    var i, j :| 0 <= i < j < |s.queue| && s.queue[i] == a && s.queue[j] == b;
    assert Obtain(s, key, burst, now).queue[i] == a && Obtain(s, key, burst, now).queue[j] == b;
  }

  /** Fairness: in any run, before a record that comes later in the queue is returned, or a new record of its
      key, each one ahead of it has been returned or has expired. */
  lemma {:induction false} FirstComesFirst(s: State, es: seq<Event>, a: nat, b: nat)
    requires Matched(s) && Before(s.queue, a, b)
    ensures || (exists i :: 0 <= i < |es| && (ReturnsAt(s, es, i, a) || ExpiresAt(s, es, i, a)))
            || (exists i :: 0 <= i < |es| && ExpiresAt(s, es, i, b))
            || (Before(After(s, es).queue, a, b) && forall i | 0 <= i < |es| :: !ReturnsAt(s, es, i, b))
  {
    if es != [] {
      var n := |es| - 1;
      var front := es[..n];
      assert forall i | 0 <= i <= n :: front[..i] == es[..i];
      assert es[..n + 1] == es;
      FirstComesFirst(s, front, a, b);
      RunMatched(s, front);
      var s1 := After(s, front);
      assert forall i | 0 <= i < n :: ReturnsAt(s, front, i, a) <==> ReturnsAt(s, es, i, a);
      assert forall i | 0 <= i < n :: ReturnsAt(s, front, i, b) <==> ReturnsAt(s, es, i, b);
      assert forall i | 0 <= i < n :: ExpiresAt(s, front, i, a) <==> ExpiresAt(s, es, i, a);
      assert forall i | 0 <= i < n :: ExpiresAt(s, front, i, b) <==> ExpiresAt(s, es, i, b);
      if Before(s1.queue, a, b) {
        LastEvent(s, es, a, b);
      }
    }
  }

  lemma LastEvent(s: State, es: seq<Event>, a: nat, b: nat)
    requires es != [] && Matched(After(s, es[..|es| - 1])) && Before(After(s, es[..|es| - 1]).queue, a, b)
    ensures var n := |es| - 1;
            ReturnsAt(s, es, n, a) || ExpiresAt(s, es, n, a) || ExpiresAt(s, es, n, b)
            || (Before(After(s, es).queue, a, b) && !ReturnsAt(s, es, n, b))
  {
    var n := |es| - 1;
    var s1 := After(s, es[..n]);
    assert es[..n + 1] == es;
    match es[n]
    case Packet(key, burst, now) => PacketKeepsOrder(s1, key, burst, now, a, b);
    case Send(now) =>
      TurnKeepsOrder(s1, now, a, b);
      assert a in s1.queue && b in s1.queue;
      GoneExpired(s1, now, b);
  }

  /** Only expired records are removed. */
  lemma GoneExpired(s: State, now: real, key: nat)
    requires Matched(s) && key in s.records
    ensures key in Next(s, now).0.records || now - s.records[key] > EXPIRE
  {
    var k := NextIs(s, now);
  }

  /** Between two returns of a record, every record that was there at the first and did not expire was returned. */
  lemma RoundRobin(s: State, now: real, es: seq<Event>, now': real, a: nat, b: nat)
    requires Matched(s) && Next(s, now).1 == Some(b) && a in Next(s, now).0.records && a != b
    requires var s1 := Next(s, now).0; Returned(s1, es, now') == Some(b)
    ensures var s1 := Next(s, now).0; var all := es + [Send(now')];
            || (exists i :: 0 <= i < |all| && (ReturnsAt(s1, all, i, a) || ExpiresAt(s1, all, i, a)))
            || (exists i :: 0 <= i < |all| && ExpiresAt(s1, all, i, b))
  {
    var s1 := Next(s, now).0;
    var all := es + [Send(now')];
    NextMatched(s, now);
    var k := NextIs(s, now);
    assert s1.queue[|s1.queue| - 1] == b;
    var i :| 0 <= i < |s1.queue| && s1.queue[i] == a;
    assert Before(s1.queue, a, b);
    FirstComesFirst(s1, all, a, b);
    assert all[..|es|] == es;
    assert ReturnsAt(s1, all, |es|, b);
  }

  // ----- what is returned, and how old it is -----

  predicate Expired(s: State, key: nat, now: real)
    requires key in s.records
  {
    now - s.records[key] > EXPIRE
  }

  /** A turn returns a record that has not expired, if there is one, and removes exactly the expired ones that were
      ahead of it. */
  ghost predicate Turns(s: State, now: real, s': State, r: Option<nat>) {
    && (r == None <==> forall key | key in s.records :: Expired(s, key, now))
    && (r.Some? ==> r.value in s.records && !Expired(s, r.value, now))
    && (forall key | key in s'.records :: key in s.records && s'.records[key] == s.records[key])
    && forall key | key in s.records ::
         key !in s'.records <==> Expired(s, key, now) && (r == None || Before(s.queue, key, r.value))
  }

  lemma TurnLaw(s: State, now: real)
    requires Matched(s)
    ensures Turns(s, now, Next(s, now).0, Next(s, now).1)
  {
    hide Matched, Before, Next, AllDead, Keys;
    var k := NextIs(s, now);
    HeadsExpired(s, now, k);
    forall key | key in s.records
      ensures key in Keys(s.queue[..k]) <==>
              Expired(s, key, now) && (k == |s.queue| || Before(s.queue, key, s.queue[k]))
    {
      AheadIff(s, now, k, key);
    }
  }

  lemma HeadsExpired(s: State, now: real, k: nat)
    requires Matched(s) && k <= |s.queue| && AllDead(s, s.queue[..k], now)
    ensures forall key | key in Keys(s.queue[..k]) :: key in s.records && Expired(s, key, now)
    ensures forall key | key in s.records && k == |s.queue| :: key in Keys(s.queue[..k])
    ensures forall key | key in s.records && key in s.queue[..k] && k < |s.queue| :: Before(s.queue, key, s.queue[k])
  {
    forall key | key in s.queue[..k] ensures k < |s.queue| ==> Before(s.queue, key, s.queue[k]) {
      var i :| 0 <= i < k && s.queue[..k][i] == key;
      assert s.queue[i] == key;
    }
  }

  lemma AheadIff(s: State, now: real, k: nat, key: nat)
    requires Matched(s) && k <= |s.queue| && key in s.records
    requires forall x | x in Keys(s.queue[..k]) :: x in s.records && Expired(s, x, now)
    requires forall x | x in s.records && x in s.queue[..k] && k < |s.queue| :: Before(s.queue, x, s.queue[k])
    ensures key in Keys(s.queue[..k]) <==> Expired(s, key, now) && (k == |s.queue| || Before(s.queue, key, s.queue[k]))
  {
    if k == |s.queue| {
      assert s.queue[..k] == s.queue;
    } else if Before(s.queue, key, s.queue[k]) {
      var i, j :| 0 <= i < j < |s.queue| && s.queue[i] == key && s.queue[j] == s.queue[k];
      assert j == k;
      assert s.queue[..k][i] == key;
    }
  }

  /** Event i gave the record its time: a packet on it outside bursts, or the one it was made for. */
  ghost predicate TimedAt(s: State, es: seq<Event>, i: nat, key: nat, time: real)
    requires i < |es|
  {
    && es[i].Packet? && es[i].key == key && es[i].now == time
    && (!es[i].burst || key !in After(s, es[..i]).records)
  }

  /** No packet on it outside bursts came later. */
  ghost predicate LastTime(es: seq<Event>, i: nat, key: nat) {
    forall j | i < j < |es| && es[j].Packet? && es[j].key == key :: es[j].burst
  }

  ghost predicate TimeIs(es: seq<Event>, key: nat, time: real) {
    exists i :: 0 <= i < |es| && TimedAt(Start, es, i, key, time) && LastTime(es, i, key)
  }

  lemma TimeStays(es: seq<Event>, key: nat, time: real)
    requires es != [] && TimeIs(es[..|es| - 1], key, time)
    requires var e := es[|es| - 1]; e.Packet? && e.key == key ==> e.burst
    ensures TimeIs(es, key, time)
  {
    var front := es[..|es| - 1];
    var i :| 0 <= i < |front| && TimedAt(Start, front, i, key, time) && LastTime(front, i, key);
    assert front[..i] == es[..i];
    assert TimedAt(Start, es, i, key, time) && LastTime(es, i, key);
  }

  lemma StepTime(s: State, e: Event, key: nat)
    requires Matched(s) && key in Step(s, e).records
    requires !(e.Packet? && e.key == key && (!e.burst || key !in s.records))
    ensures key in s.records && Step(s, e).records[key] == s.records[key]
  {
    if e.Send? {
      var k := NextIs(s, e.now);
    }
  }

  /** In every run the time of a record is that of the last packet that counts. */
  lemma {:induction false} TimesRight(es: seq<Event>, key: nat)
    requires key in After(Start, es).records
    ensures TimeIs(es, key, After(Start, es).records[key])
  {
    var n := |es| - 1;
    var s := After(Start, es[..n]);
    RunMatched(Start, es[..n]);
    if es[n].Packet? && es[n].key == key && (!es[n].burst || key !in s.records) {
      assert TimedAt(Start, es, n, key, es[n].now) && LastTime(es, n, key);
    } else {
      StepTime(s, es[n], key);
      TimesRight(es[..n], key);
      TimeStays(es, key, s.records[key]);
    }
  }

  // ----- the processor -----

  class Processor {
    var caMap: map<nat, real>
    var caQueue: seq<nat>

    ghost function View(): State
      reads this
    {
      State(caMap, caQueue)
    }

    constructor ()
      ensures View() == Start
    {
      caMap, caQueue := map[], [];
    }

    method CaAlloc(key: nat, time: real)
      modifies this
      ensures View() == Alloc(old(View()), key, time)
    {
      caMap := caMap[key := time];
      caQueue := caQueue + [key];
    }

    method CaFree(key: nat)
      modifies `caMap
      ensures caMap == old(caMap) - {key}
    {
      if key !in caMap {
        return;
      }
      caMap := caMap - {key};
    }

    /** recv(): get or allocate the response, and update it unless the packet is one of a burst. */
    method Recv(key: nat, burstId: nat, now: real)
      modifies this
      ensures View() == Obtain(old(View()), key, burstId > 0, now)
    {
      if key !in caMap {
        CaAlloc(key, now);
      }
      if burstId > 0 {
        return;
      }
      caMap := caMap[key := now];
    }

    method CaNext(now: real) returns (found: Option<nat>)
      modifies this
      ensures (View(), found) == Next(old(View()), now)
    {
      while caQueue != []
        invariant Next(old(View()), now) == Next(View(), now)
        decreases |caQueue|
      {
        var t := caQueue[0];
        caQueue := caQueue[1..];
        if t !in caMap {
          assert caMap - {t} == caMap;
          continue;
        }
        if now - caMap[t] > EXPIRE {
          CaFree(t);
          continue;
        }
        caQueue := caQueue + [t];
        return Some(t);
      }
      found := None;
    }
  }
}
