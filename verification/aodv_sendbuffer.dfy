// The send buffer of AODV as a bounded queue of packets with deadlines (ns-2.35/aodv/aodv_rqueue.cc).
module AodvSendBuffer {
  import opened Common

  /** AODV_RTQ_MAX_LEN */
  const LIMIT: nat := 64

  /** AODV_RTQ_TIMEOUT */
  const TIMEOUT := 30.0

  /** A packet, by its place in the order of arrival, and its deadline. */
  datatype Queued = Queued(id: nat, dst: nat, ts: real)

  /** What the purge that searches the whole buffer leaves. */
  function Purged(buf: seq<Queued>, now: real): (r: seq<Queued>)
    ensures |r| <= |buf|
  {
    if buf == [] then []
    else (if buf[0].ts < now then [] else [buf[0]]) + Purged(buf[1..], now)
  }

  /** What a purge that only looks at the head leaves. */
  function HeadPurged(buf: seq<Queued>, now: real): seq<Queued> {
    if buf != [] && buf[0].ts < now then HeadPurged(buf[1..], now) else buf
  }

  /** A full buffer loses its oldest packet to the new one. */
  function Pushed(b: seq<Queued>, q: Queued): seq<Queued> {
    (if |b| == LIMIT then b[1..] else b) + [q]
  }

  function Popped(b: seq<Queued>): (seq<Queued>, Option<Queued>) {
    if b == [] then (b, None) else (b[1..], Some(b[0]))
  }

  /** The first packet for dst, or the length of the buffer. */
  function FirstFor(buf: seq<Queued>, dst: nat): (k: nat)
    ensures k <= |buf|
    ensures forall j | 0 <= j < k :: buf[j].dst != dst
    ensures k < |buf| ==> buf[k].dst == dst
  {
    if buf == [] || buf[0].dst == dst then 0 else 1 + FirstFor(buf[1..], dst)
  }

  function Without(b: seq<Queued>, k: nat): seq<Queued>
    requires k < |b|
  {
    b[..k] + b[k + 1..]
  }

  function PoppedFor(b: seq<Queued>, dst: nat): (seq<Queued>, Option<Queued>) {
    var k := FirstFor(b, dst);
    if k == |b| then (b, None) else (Without(b, k), Some(b[k]))
  }

  // Every operation purges the buffer first.

  function Enque(buf: seq<Queued>, id: nat, dst: nat, now: real): seq<Queued> {
    Pushed(Purged(buf, now), Queued(id, dst, now + TIMEOUT))
  }

  function Deque(buf: seq<Queued>, now: real): (seq<Queued>, Option<Queued>) {
    Popped(Purged(buf, now))
  }

  function DequeFor(buf: seq<Queued>, dst: nat, now: real): (seq<Queued>, Option<Queued>) {
    PoppedFor(Purged(buf, now), dst)
  }

  // ----- the two purges -----

  ghost predicate Alive(buf: seq<Queued>, now: real) {
    forall i | 0 <= i < |buf| :: buf[i].ts >= now
  }

  lemma {:induction false} AliveStays(buf: seq<Queued>, now: real)
    requires Alive(buf, now)
    ensures Purged(buf, now) == buf
  {
    if buf != [] {
      AliveStays(buf[1..], now);
      assert buf == [buf[0]] + buf[1..];
    }
  }

  lemma {:induction false} PurgedAlive(buf: seq<Queued>, now: real)
    ensures Alive(Purged(buf, now), now)
    ensures forall q | q in Purged(buf, now) :: q in buf
    ensures forall q | q in buf && q.ts >= now :: q in Purged(buf, now)
  {
    if buf != [] {
      PurgedAlive(buf[1..], now);
      assert buf == [buf[0]] + buf[1..];
    }
  }

  /** No expired packet is behind one that has not expired. */
  ghost predicate ExpiredFirst(buf: seq<Queued>, now: real) {
    forall i, j | 0 <= i < j < |buf| && buf[j].ts < now :: buf[i].ts < now
  }

  lemma HeadAlive(buf: seq<Queued>, now: real)
    requires buf != [] && buf[0].ts >= now
    ensures Purged(buf, now) == buf <==> ExpiredFirst(buf, now)
  {
    PurgedAlive(buf, now);
    if Alive(buf, now) {
      AliveStays(buf, now);
    }
    assert ExpiredFirst(buf, now) ==> Alive(buf, now);
  }

  lemma HeadExpired(buf: seq<Queued>, now: real)
    requires buf != [] && buf[0].ts < now
    ensures ExpiredFirst(buf, now) <==> ExpiredFirst(buf[1..], now)
  {
    assert forall i | 1 <= i < |buf| :: buf[i] == buf[1..][i - 1];
  }

  /** Searching the whole buffer and looking at the head only come to the same exactly if no expired packet
      is behind one that has not expired. */
  lemma {:induction false} PurgesAgreeIff(buf: seq<Queued>, now: real)
    ensures Purged(buf, now) == HeadPurged(buf, now) <==> ExpiredFirst(buf, now)
  {
    if buf != [] {
      if buf[0].ts < now {
        PurgesAgreeIff(buf[1..], now);
        HeadExpired(buf, now);
      } else {
        HeadAlive(buf, now);
      }
    }
  }

  // ----- runs -----

  datatype Event =
    | Put(dst: nat, now: real)
    | Get(now: real)
    | GetFor(dst: nat, now: real)

  /** The buffer, how many packets have been put, the packets got, and the time. */
  datatype State = State(buf: seq<Queued>, count: nat, got: seq<Queued>, clock: real)

  const Start := State([], 0, [], 0.0)

  function Append(got: seq<Queued>, q: Option<Queued>): seq<Queued> {
    if q.Some? then got + [q.value] else got
  }

  function Purge(s: State, now: real): State {
    State(Purged(s.buf, now), s.count, s.got, now)
  }

  function PutIn(s: State, dst: nat): State {
    State(Pushed(s.buf, Queued(s.count, dst, s.clock + TIMEOUT)), s.count + 1, s.got, s.clock)
  }

  function TakeOut(s: State): State {
    State(Popped(s.buf).0, s.count, Append(s.got, Popped(s.buf).1), s.clock)
  }

  function TakeOutFor(s: State, dst: nat): State {
    State(PoppedFor(s.buf, dst).0, s.count, Append(s.got, PoppedFor(s.buf, dst).1), s.clock)
  }

  /** What the event does to a buffer that has been purged. */
  function Apply(s: State, e: Event): State {
    match e
    case Put(dst, _) => PutIn(s, dst)
    case Get(_) => TakeOut(s)
    case GetFor(dst, _) => TakeOutFor(s, dst)
  }

  function Step(s: State, e: Event): State {
    Apply(Purge(s, e.now), e)
  }

  predicate Legal(es: seq<Event>) {
    es == [] || (Legal(es[..|es| - 1]) && After(es[..|es| - 1]).clock <= es[|es| - 1].now)
  }

  function After(es: seq<Event>): State {
    if es == [] then Start else Step(After(es[..|es| - 1]), es[|es| - 1])
  }

  /** In order of arrival, and hence of deadline. */
  ghost predicate InOrder(buf: seq<Queued>) {
    forall i, j | 0 <= i < j < |buf| :: buf[i].id < buf[j].id && buf[i].ts <= buf[j].ts
  }

  /** Got packets of one destination are in order of arrival, and before all that still wait. */
  ghost predicate GotInOrder(got: seq<Queued>, buf: seq<Queued>) {
    && (forall i, j | 0 <= i < j < |got| && got[i].dst == got[j].dst :: got[i].id < got[j].id)
    && (forall i, q | 0 <= i < |got| && q in buf && got[i].dst == q.dst :: got[i].id < q.id)
  }

  /** Nothing carries a number or a deadline that is still to come. */
  ghost predicate Past(got: seq<Queued>, buf: seq<Queued>, count: nat, clock: real) {
    && (forall i | 0 <= i < |got| :: got[i].id < count)
    && (forall q | q in buf :: q.id < count && q.ts <= clock + TIMEOUT)
  }

  ghost predicate Ok(s: State) {
    && |s.buf| <= LIMIT && InOrder(s.buf)
    && GotInOrder(s.got, s.buf) && Past(s.got, s.buf, s.count, s.clock)
  }

  lemma {:induction false} PurgedInOrder(buf: seq<Queued>, now: real)
    requires InOrder(buf)
    ensures InOrder(Purged(buf, now))
  {
    if buf != [] {
      var rest := buf[1..];
      PurgedInOrder(rest, now);
      PurgedAlive(rest, now);
      var r := Purged(rest, now);
      forall i | 0 <= i < |r| ensures buf[0].id < r[i].id && buf[0].ts <= r[i].ts {
        assert r[i] in rest;
      }
    }
  }

  lemma WithoutInOrder(b: seq<Queued>, k: nat)
    requires k < |b| && InOrder(b)
    ensures InOrder(Without(b, k))
  {
    var w := Without(b, k);
    assert forall j | 0 <= j < |w| :: w[j] == b[if j < k then j else j + 1];
  }

  lemma WithoutFollows(b: seq<Queued>, k: nat, q: Queued)
    requires k < |b| && InOrder(b) && (forall j | 0 <= j < k :: b[j].dst != b[k].dst) && q in Without(b, k)
    ensures q in b && (q.dst == b[k].dst ==> b[k].id < q.id)
  {
    var w := Without(b, k);
    var j :| 0 <= j < |w| && w[j] == q;
    assert w[j] == b[if j < k then j else j + 1];
  }

  lemma GetKeeps(got: seq<Queued>, b: seq<Queued>, k: nat)
    requires GotInOrder(got, b) && InOrder(b) && k < |b| && forall j | 0 <= j < k :: b[j].dst != b[k].dst
    ensures GotInOrder(got + [b[k]], Without(b, k))
  {
    var got', w := got + [b[k]], Without(b, k);
    assert b[k] in b;
    forall i, q | 0 <= i < |got'| && q in w && got'[i].dst == q.dst ensures got'[i].id < q.id {
      WithoutFollows(b, k, q);
    }
  }

  lemma GetOk(s: State, k: nat)
    requires Ok(s) && k < |s.buf| && forall j | 0 <= j < k :: s.buf[j].dst != s.buf[k].dst
    ensures Ok(State(Without(s.buf, k), s.count, s.got + [s.buf[k]], s.clock))
  {
    WithoutInOrder(s.buf, k);
    GetKeeps(s.got, s.buf, k);
    assert s.buf[k] in s.buf;
    forall q | q in Without(s.buf, k) ensures q in s.buf {
      WithoutFollows(s.buf, k, q);
    }
  }

  lemma PurgeOk(s: State, now: real)
    requires Ok(s) && s.clock <= now
    ensures Ok(Purge(s, now))
  {
    PurgedInOrder(s.buf, now);
    PurgedAlive(s.buf, now);
  }

  lemma PushInOrder(b: seq<Queued>, q: Queued)
    requires InOrder(b) && forall x | x in b :: x.id < q.id && x.ts <= q.ts
    ensures InOrder(Pushed(b, q)) && (|b| <= LIMIT ==> |Pushed(b, q)| <= LIMIT)
    ensures forall x | x in Pushed(b, q) :: x in b || x == q
  {
    var kept := if |b| == LIMIT then b[1..] else b;
    assert forall i | 0 <= i < |kept| :: kept[i] in b;
  }

  lemma PutOk(s: State, dst: nat)
    requires Ok(s)
    ensures Ok(PutIn(s, dst))
  {
    PushInOrder(s.buf, Queued(s.count, dst, s.clock + TIMEOUT));
    hide InOrder;
    hide Pushed;
  }

  lemma PopForOk(s: State, dst: nat)
    requires Ok(s)
    ensures Ok(TakeOutFor(s, dst))
  {
    var k := FirstFor(s.buf, dst);
    if k < |s.buf| {
      GetOk(s, k);
    }
  }

  lemma PopOk(s: State)
    requires Ok(s)
    ensures Ok(TakeOut(s))
  {
    if s.buf != [] {
      GetOk(s, 0);
      assert Without(s.buf, 0) == s.buf[1..];
    }
  }

  lemma ApplyOk(s: State, e: Event)
    requires Ok(s)
    ensures Ok(Apply(s, e))
  {
    match e
    case Put(dst, now) => PutOk(s, dst);
    case Get(now) => PopOk(s);
    case GetFor(dst, now) => PopForOk(s, dst);
  }

  lemma {:induction false} RunOk(es: seq<Event>)
    requires Legal(es)
    ensures Ok(After(es))
  {
    if es != [] {
      RunOk(es[..|es| - 1]);
      var s, e := After(es[..|es| - 1]), es[|es| - 1];
      PurgeOk(s, e.now);
      ApplyOk(Purge(s, e.now), e);
    }
  }

  /** In every run the buffer is bounded, in order of arrival, and its packets leave, for each destination,
      in order of arrival, each at most once; and both purges always come to the same. */
  lemma BufferIsFifo(es: seq<Event>, now: real)
    requires Legal(es)
    ensures var s := After(es);
            && |s.buf| <= LIMIT && InOrder(s.buf) && GotInOrder(s.got, s.buf)
            && Purged(s.buf, now) == HeadPurged(s.buf, now)
  {
    RunOk(es);
    PurgesAgreeIff(After(es).buf, now);
  }

  // ----- what becomes of every packet -----

  function Elements(buf: seq<Queued>): set<Queued> {
    set q | q in buf
  }

  /** The packets that have not expired. */
  function Live(buf: seq<Queued>, now: real): set<Queued> {
    set q | q in buf && q.ts >= now
  }

  /** The first of these to arrive. */
  ghost predicate Oldest(q: Queued, of: set<Queued>) {
    q in of && forall x | x in of :: q.id <= x.id
  }

  function ForDst(of: set<Queued>, dst: nat): set<Queued> {
    set q | q in of && q.dst == dst
  }

  /** Of the packets asked for, the one that came first is got, if there is one, and no other goes. */
  ghost predicate Gets(got: seq<Queued>, live: set<Queued>, of: set<Queued>, s': State) {
    if of == {} then s'.got == got && Elements(s'.buf) == live
    else exists q :: Oldest(q, of) && s'.got == got + [q] && Elements(s'.buf) == live - {q}
  }

  /** A new packet always comes in; if 64 packets are waiting that have not expired, the one that came first goes. */
  ghost predicate Puts(live: set<Queued>, put: Queued, s': State) {
    if |live| < LIMIT then Elements(s'.buf) == live + {put}
    else exists q :: Oldest(q, live) && Elements(s'.buf) == live - {q} + {put}
  }

  /** What an event does with the packets; those that have expired are gone in any case. */
  ghost predicate Serves(s: State, e: Event, s': State) {
    Asked(s, e, Live(s.buf, e.now), s') && s'.clock == e.now
  }

  ghost predicate Asked(s: State, e: Event, live: set<Queued>, s': State) {
    match e
    case Put(dst, now) =>
      s'.count == s.count + 1 && s'.got == s.got && Puts(live, Queued(s.count, dst, now + TIMEOUT), s')
    case Get(_) => s'.count == s.count && Gets(s.got, live, live, s')
    case GetFor(dst, _) => s'.count == s.count && Gets(s.got, live, ForDst(live, dst), s')
  }

  lemma PurgedIsLive(buf: seq<Queued>, now: real)
    ensures Elements(Purged(buf, now)) == Live(buf, now)
  {
    PurgedAlive(buf, now);
  }

  lemma {:induction false} InOrderCounts(b: seq<Queued>)
    requires InOrder(b)
    ensures |Elements(b)| == |b|
  {
    if b != [] {
      var rest := b[1..];
      InOrderCounts(rest);
      assert b == [b[0]] + rest;
      assert Elements(b) == Elements(rest) + {b[0]};
      forall i | 0 <= i < |rest| ensures rest[i] != b[0] {
        assert rest[i] == b[i + 1];
      }
    }
  }

  lemma WithoutElements(b: seq<Queued>, k: nat)
    requires InOrder(b) && k < |b|
    ensures Elements(Without(b, k)) == Elements(b) - {b[k]}
  {
    var w := Without(b, k);
    forall q | q in b && q != b[k] ensures q in w {
      var i :| 0 <= i < |b| && b[i] == q;
      assert w[if i < k then i else i - 1] == q;
    }
    forall q | q in w ensures q in b && q != b[k] {
      var i :| 0 <= i < |w| && w[i] == q;
      assert q == b[if i < k then i else i + 1];
    }
  }

  lemma TakenIsOldest(b: seq<Queued>, dst: nat)
    requires InOrder(b)
    ensures var k := FirstFor(b, dst);
            if k == |b| then ForDst(Elements(b), dst) == {} else Oldest(b[k], ForDst(Elements(b), dst))
  {
  }

  lemma PushedElements(b: seq<Queued>, q: Queued)
    requires InOrder(b) && |b| <= LIMIT
    ensures |b| < LIMIT ==> Elements(Pushed(b, q)) == Elements(b) + {q}
    ensures |b| == LIMIT ==> Oldest(b[0], Elements(b)) && Elements(Pushed(b, q)) == Elements(b) - {b[0]} + {q}
  {
    if |b| == LIMIT {
      WithoutElements(b, 0);
      assert Without(b, 0) == b[1..];
    }
  }

  lemma PutServes(s: State, dst: nat)
    requires InOrder(s.buf) && |s.buf| <= LIMIT
    ensures Puts(Elements(s.buf), Queued(s.count, dst, s.clock + TIMEOUT), PutIn(s, dst))
  {
    InOrderCounts(s.buf);
    PushedElements(s.buf, Queued(s.count, dst, s.clock + TIMEOUT));
    hide Oldest;
    hide Elements;
    hide InOrder;
    hide Pushed;
  }

  lemma GetServes(s: State)
    requires InOrder(s.buf)
    ensures Gets(s.got, Elements(s.buf), Elements(s.buf), TakeOut(s))
  {
    if s.buf != [] {
      WithoutElements(s.buf, 0);
      assert Without(s.buf, 0) == s.buf[1..];
      assert s.buf[0] in Elements(s.buf);
      assert Oldest(s.buf[0], Elements(s.buf));
    }
  }

  lemma GetForServes(s: State, dst: nat)
    requires InOrder(s.buf)
    ensures Gets(s.got, Elements(s.buf), ForDst(Elements(s.buf), dst), TakeOutFor(s, dst))
  {
    TakenIsOldest(s.buf, dst);
    var k := FirstFor(s.buf, dst);
    if k < |s.buf| {
      WithoutElements(s.buf, k);
    }
  }

  lemma ApplyServes(s: State, e: Event)
    requires InOrder(s.buf) && |s.buf| <= LIMIT && s.clock == e.now
    ensures Asked(s, e, Elements(s.buf), Apply(s, e))
  {
    hide Puts;
    hide Gets;
    hide InOrder;
    match e
    case Put(dst, now) => PutServes(s, dst);
    case Get(now) => GetServes(s);
    case GetFor(dst, now) => GetForServes(s, dst);
  }

  /** In every run each event serves the packets as it should. */
  lemma EventServes(es: seq<Event>, e: Event)
    requires Legal(es) && After(es).clock <= e.now
    ensures Serves(After(es), e, Step(After(es), e))
  {
    hide Legal, After, Ok, Live, Elements, InOrder, Gets, Puts, Purged, Apply, GotInOrder, Past;
    var s := After(es);
    RunOk(es);
    PurgedIsLive(s.buf, e.now);
    PurgeOk(s, e.now);
    ApplyEvent(s, e);
  }

  lemma ApplyEvent(s: State, e: Event)
    requires Ok(Purge(s, e.now)) && Elements(Purged(s.buf, e.now)) == Live(s.buf, e.now)
    ensures Serves(s, e, Step(s, e))
  {
    hide Live, Elements, InOrder, Gets, Puts, Purged, GotInOrder, Past;
    ApplyServes(Purge(s, e.now), e);
  }
}
