// The token bucket filter of ns-2.35/adc/tbf.cc: a queue whose head leaves when the timer says that
// enough tokens have come in. Time and tokens are exact reals.
module TokenBucket {

  /** A packet and its size in bytes. */
  datatype Packet = Packet(id: nat, size: nat)

  datatype Departure = Departure(at: real, pkt: Packet)

  datatype Timer = Idle | Due(at: real)

  datatype Config = Config(rate: real, bucket: nat, qlen: nat) {
    predicate Valid() {
      rate > 0.0
    }

    function Depth(): (d: real)
      ensures d >= 0.0
    {
      bucket as real
    }

    /** The tokens that come in during a time dt. */
    function Income(dt: real): real {
      dt * rate
    }
  }

  /** The filter; `sent`, `accepted` and `dropped` record what it did with the packets. */
  datatype State = State(init: bool, tokens: real, last: real, queue: seq<Packet>, timer: Timer,
                         sent: seq<Departure>, accepted: seq<Packet>, dropped: seq<Packet>)

  const Start := State(true, 0.0, 0.0, [], Idle, [], [], [])

  function Bits(p: Packet): real {
    (8 * p.size) as real
  }

  function Min(a: real, b: real): real {
    if a <= b then a else b
  }

  function First(s: State, c: Config, now: real): State {
    if s.init then s.(init := false, tokens := c.Depth(), last := now) else s
  }

  function Refilled(tokens: real, last: real, c: Config, now: real): real {
    Min(tokens + c.Income(now - last), c.Depth())
  }

  function Refill(s: State, c: Config, now: real): State {
    s.(tokens := Refilled(s.tokens, s.last, c, now), last := now)
  }

  function Send(s: State, p: Packet, now: real): State {
    s.(sent := s.sent + [Departure(now, p)], tokens := s.tokens - Bits(p))
  }

  function Schedule(s: State, c: Config, now: real): State
    requires c.Valid() && s.queue != []
  {
    s.(timer := Due(now + (Bits(s.queue[0]) - s.tokens) / c.rate))
  }

  /** Packets wait already: the new one waits behind them, or is dropped. */
  function Join(s: State, c: Config, p: Packet): State {
    if |s.queue| < c.qlen then s.(queue := s.queue + [p], accepted := s.accepted + [p])
    else s.(dropped := s.dropped + [p])
  }

  /** Nobody waits, and the tokens are up to date. */
  function Meet(r: State, c: Config, p: Packet, now: real): State
    requires c.Valid()
  {
    if r.tokens >= Bits(p) then Send(r, p, now).(accepted := r.accepted + [p])
    else if c.qlen != 0 then Schedule(r.(queue := [p], accepted := r.accepted + [p]), c, now)
    else r.(dropped := r.dropped + [p])
  }

  function Recv(s0: State, c: Config, p: Packet, now: real): State
    requires c.Valid()
  {
    var s := First(s0, c, now);
    if s.queue != [] then Join(s, c, p) else Meet(Refill(s, c, now), c, p, now)
  }

  /** The state between the departure of the first packet and the next setting of the timer. */
  function Released(s: State, c: Config, now: real): State
    requires s.queue != []
  {
    Send(Refill(s.(queue := s.queue[1..], timer := Idle), c, now), s.queue[0], now)
  }

  function Timeout(s: State, c: Config, now: real): State
    requires c.Valid() && s.queue != []
  {
    var r := Released(s, c, now);
    if r.queue != [] then Schedule(r, c, now) else r
  }

  // ----- runs -----

  datatype Event = Arrival(at: real, pkt: Packet) | Expiry(at: real)

  /** The scheduler hands out events in the order of their times, and a timer exactly when it is due. */
  predicate Allowed(s: State, clock: real, e: Event) {
    && e.at >= clock
    && match e
       case Arrival(at, _) => s.timer.Due? ==> at <= s.timer.at
       case Expiry(at) => s.timer == Due(at) && s.queue != []
  }

  function Step(s: State, c: Config, e: Event): State
    requires c.Valid() && (e.Expiry? ==> s.queue != [])
  {
    match e
    case Arrival(at, p) => Recv(s, c, p, at)
    case Expiry(at) => Timeout(s, c, at)
  }

  function Clock(es: seq<Event>): real {
    if es == [] then 0.0 else es[|es| - 1].at
  }

  predicate Legal(c: Config, es: seq<Event>)
    requires c.Valid()
    decreases |es|, 0
  {
    es == [] || (var front := es[..|es| - 1]; Legal(c, front) && Allowed(After(c, front), Clock(front), es[|es| - 1]))
  }

  function After(c: Config, es: seq<Event>): State
    requires c.Valid() && Legal(c, es)
    decreases |es|, 1
  {
    if es == [] then Start else Step(After(c, es[..|es| - 1]), c, es[|es| - 1])
  }

  // ----- what is sent in an interval -----

  /** The bits sent from time s to time t, both included. */
  function Between(ds: seq<Departure>, s: real, t: real): real {
    if ds == [] then 0.0
    else
      var d := ds[|ds| - 1];
      Between(ds[..|ds| - 1], s, t) + if s <= d.at <= t then Bits(d.pkt) else 0.0
  }

  lemma BetweenPush(ds: seq<Departure>, d: Departure, s: real, t: real)
    ensures Between(ds + [d], s, t) == Between(ds, s, t) + if s <= d.at <= t then Bits(d.pkt) else 0.0
  {
    assert (ds + [d])[..|ds|] == ds;
  }

  lemma {:induction false} BetweenNone(ds: seq<Departure>, s: real, t: real)
    requires forall i | 0 <= i < |ds| :: ds[i].at < s
    ensures Between(ds, s, t) == 0.0
  {
    if ds != [] {
      BetweenNone(ds[..|ds| - 1], s, t);
    }
  }

  lemma {:induction false} BetweenNonNegative(ds: seq<Departure>, s: real, t: real)
    ensures Between(ds, s, t) >= 0.0
  {
    if ds != [] {
      BetweenNonNegative(ds[..|ds| - 1], s, t);
    }
  }

  lemma {:induction false} BetweenHas(ds: seq<Departure>, i: nat)
    requires i < |ds|
    ensures Between(ds, ds[i].at, ds[i].at) >= Bits(ds[i].pkt)
  {
    BetweenNonNegative(ds[..|ds| - 1], ds[i].at, ds[i].at);
    if i < |ds| - 1 {
      BetweenHas(ds[..|ds| - 1], i);
    }
  }

  /** Everything sent up to `last` is sent up to any later time. */
  lemma {:induction false} BetweenAll(ds: seq<Departure>, s: real, t: real, t': real)
    requires forall i | 0 <= i < |ds| :: ds[i].at <= t && ds[i].at <= t'
    ensures Between(ds, s, t) == Between(ds, s, t')
  {
    if ds != [] {
      BetweenAll(ds[..|ds| - 1], s, t, t');
    }
  }

  // ----- the invariant -----

  function Packets(ds: seq<Departure>): (ps: seq<Packet>)
    ensures |ps| == |ds|
  {
    seq(|ds|, i requires 0 <= i < |ds| => ds[i].pkt)
  }

  /** The timer runs exactly while packets wait, and is due when the tokens, not counting the depth of the
      bucket, are as many as the bits of the first. */
  ghost predicate TimerOk(s: State, c: Config) {
    if s.queue == [] then s.timer == Idle
    else s.timer.Due? && s.tokens + c.Income(s.timer.at - s.last) == Bits(s.queue[0]) && s.last <= s.timer.at
  }

  ghost predicate Sizes(ps: seq<Packet>, most: real) {
    forall i | 0 <= i < |ps| :: Bits(ps[i]) <= most
  }

  /** The tokens are in the bucket, or overdrawn by what a packet is larger than the bucket. */
  ghost predicate TokensOk(tokens: real, c: Config, most: real) {
    tokens <= c.Depth() && (tokens >= 0.0 || tokens >= c.Depth() - most)
  }

  /** What was sent since any time in the past left its mark in the tokens. */
  ghost predicate Paid(ds: seq<Departure>, tokens: real, last: real, c: Config) {
    && (forall i | 0 <= i < |ds| :: ds[i].at <= last)
    && forall a | a <= last :: Between(ds, a, last) + tokens <= c.Depth() + c.Income(last - a)
  }

  /** The traffic contract for bursts of up to `burst` bits. */
  ghost predicate Conforms(ds: seq<Departure>, c: Config, burst: real) {
    forall a, b | a <= b :: Between(ds, a, b) <= burst + c.Income(b - a)
  }

  ghost predicate Order(s: State, c: Config) {
    && s.accepted == Packets(s.sent) + s.queue && |s.queue| <= c.qlen
    && forall i, j | 0 <= i < j < |s.sent| :: s.sent[i].at <= s.sent[j].at
  }

  ghost predicate Ok(s: State, c: Config, clock: real, most: real) {
    && most >= 0.0 && s.last <= clock
    && (s.init ==> s == Start)
    && (!s.init ==> TimerOk(s, c) && TokensOk(s.tokens, c, most) && Paid(s.sent, s.tokens, s.last, c))
    && Order(s, c)
    && Conforms(s.sent, c, Larger(c.Depth(), most))
  }

  function Larger(a: real, b: real): real {
    if a <= b then b else a
  }

  lemma Accrues(c: Config, dt: real)
    requires c.Valid() && dt >= 0.0
    ensures c.Income(dt) >= 0.0
  {
  }

  /** Tokens come in from a to last, and from last to b. */
  lemma Adds(c: Config, a: real, last: real, b: real)
    ensures c.Income(b - a) == c.Income(last - a) + c.Income(b - last)
  {
  }

  lemma RefillPaid(ds: seq<Departure>, tokens: real, last: real, c: Config, now: real)
    requires c.Valid() && Paid(ds, tokens, last, c) && last <= now
    ensures Paid(ds, Refilled(tokens, last, c, now), now, c)
  {
    forall a | a <= now ensures Between(ds, a, now) + Refilled(tokens, last, c, now) <= c.Depth() + c.Income(now - a) {
      if a <= last {
        BetweenAll(ds, a, last, now);
        Adds(c, a, last, now);
      } else {
        BetweenNone(ds, a, now);
        Accrues(c, now - a);
      }
    }
  }

  lemma SendPaid(ds: seq<Departure>, tokens: real, last: real, c: Config, p: Packet)
    requires Paid(ds, tokens, last, c)
    ensures Paid(ds + [Departure(last, p)], tokens - Bits(p), last, c)
  {
    var ds' := ds + [Departure(last, p)];
    forall a | a <= last ensures Between(ds', a, last) + tokens - Bits(p) <= c.Depth() + c.Income(last - a) {
      BetweenPush(ds, Departure(last, p), a, last);
      assert Between(ds, a, last) + tokens <= c.Depth() + c.Income(last - a);
    }
  }

  /** The token count turns into the bound for every interval. */
  lemma SendConforms(ds: seq<Departure>, tokens: real, last: real, c: Config, p: Packet, burst: real)
    requires c.Valid() && Paid(ds, tokens, last, c) && Conforms(ds, c, burst)
    requires tokens - Bits(p) >= c.Depth() - burst
    ensures Conforms(ds + [Departure(last, p)], c, burst)
  {
    var ds' := ds + [Departure(last, p)];
    SendPaid(ds, tokens, last, c, p);
    forall a, b | a <= b ensures Between(ds', a, b) <= burst + c.Income(b - a) {
      if a <= last <= b {
        BetweenAll(ds', a, last, b);
        Adds(c, a, last, b);
        Accrues(c, b - last);
      } else {
        BetweenPush(ds, Departure(last, p), a, b);
        assert Between(ds, a, b) <= burst + c.Income(b - a);
      }
    }
  }

  lemma SendOrder(s: State, c: Config, p: Packet)
    requires (forall i | 0 <= i < |s.sent| :: s.sent[i].at <= s.last)
             && forall i, j | 0 <= i < j < |s.sent| :: s.sent[i].at <= s.sent[j].at
    ensures var ds := Send(s, p, s.last).sent;
            Packets(ds) == Packets(s.sent) + [p] && forall i, j | 0 <= i < j < |ds| :: ds[i].at <= ds[j].at
  {
  }

  lemma ScheduleOk(s: State, c: Config)
    requires c.Valid() && s.queue != [] && s.tokens <= Bits(s.queue[0])
    ensures TimerOk(Schedule(s, c, s.last), c)
  {
    var d := Bits(s.queue[0]) - s.tokens;
    assert c.Income(d / c.rate) == d;
    assert d / c.rate >= 0.0;
    assert s.last + d / c.rate - s.last == d / c.rate;
  }

  /** When the timer is due, the tokens are exactly the bits of the packet that leaves, or the bucket is full. */
  lemma DueTokens(s: State, c: Config, now: real)
    requires TimerOk(s, c) && s.timer == Due(now) && s.queue != []
    ensures Refill(s, c, now).tokens == Min(Bits(s.queue[0]), c.Depth())
    ensures Refill(s, c, now).tokens == Bits(s.queue[0]) <==> Bits(s.queue[0]) <= c.Depth()
  {
  }

  lemma FirstOk(s: State, c: Config, clock: real, now: real, most: real)
    requires c.Valid() && Ok(s, c, clock, most) && clock <= now
    ensures Ok(First(s, c, now), c, now, most)
  {
    if s.init {
      forall a | a <= now ensures Between(s.sent, a, now) + c.Depth() <= c.Depth() + c.Income(now - a) {
        Accrues(c, now - a);
      }
    }
  }

  lemma RefillTokens(tokens: real, last: real, c: Config, now: real, most: real)
    requires c.Valid() && TokensOk(tokens, c, most) && last <= now && most >= 0.0
    ensures TokensOk(Refilled(tokens, last, c, now), c, most)
  {
    Accrues(c, now - last);
  }

  lemma RefillOk(s: State, c: Config, now: real, most: real)
    requires c.Valid() && Ok(s, c, now, most) && !s.init && s.queue == []
    ensures Ok(Refill(s, c, now), c, now, most)
  {
    RefillPaid(s.sent, s.tokens, s.last, c, now);
    RefillTokens(s.tokens, s.last, c, now, most);
  }

  lemma PassOk(r: State, c: Config, p: Packet, now: real, most: real)
    requires c.Valid() && Ok(r, c, now, most) && !r.init && r.queue == [] && r.last == now && Bits(p) <= most
    requires r.tokens >= Bits(p)
    ensures Ok(Send(r, p, now).(accepted := r.accepted + [p]), c, now, most)
  {
    SendPaid(r.sent, r.tokens, now, c, p);
    SendConforms(r.sent, r.tokens, now, c, p, Larger(c.Depth(), most));
    SendOrder(r, c, p);
  }

  lemma EnqueueOk(r: State, c: Config, p: Packet, now: real, most: real)
    requires c.Valid() && Ok(r, c, now, most) && !r.init && r.queue == [] && r.last == now && c.qlen != 0
    requires r.tokens < Bits(p) && Bits(p) <= most
    ensures Ok(Schedule(r.(queue := [p], accepted := r.accepted + [p]), c, now), c, now, most)
  {
    ScheduleOk(r.(queue := [p], accepted := r.accepted + [p]), c);
  }

  lemma MeetOk(r: State, c: Config, p: Packet, now: real, most: real)
    requires c.Valid() && Ok(r, c, now, most) && !r.init && r.queue == [] && r.last == now && Bits(p) <= most
    ensures Ok(Meet(r, c, p, now), c, now, most)
  {
    if r.tokens >= Bits(p) {
      PassOk(r, c, p, now, most);
    } else if c.qlen != 0 {
      EnqueueOk(r, c, p, now, most);
    }
  }

  lemma JoinOk(s: State, c: Config, p: Packet, now: real, most: real)
    requires Ok(s, c, now, most) && !s.init && s.queue != []
    ensures Ok(Join(s, c, p), c, now, most)
  {
  }

  lemma RecvOk(s0: State, c: Config, p: Packet, clock: real, now: real, most: real)
    requires c.Valid() && Ok(s0, c, clock, most) && clock <= now && Bits(p) <= most
    ensures Ok(Recv(s0, c, p, now), c, now, most)
  {
    var s := First(s0, c, now);
    FirstOk(s0, c, clock, now, most);
    if s.queue != [] {
      JoinOk(s, c, p, now, most);
    } else {
      RefillOk(s, c, now, most);
      MeetOk(Refill(s, c, now), c, p, now, most);
    }
  }

  lemma ReleasedTokens(s: State, c: Config, now: real, most: real)
    requires c.Valid() && TimerOk(s, c) && s.timer == Due(now) && s.queue != [] && most >= Bits(s.queue[0])
    ensures TokensOk(Released(s, c, now).tokens, c, most) && Released(s, c, now).tokens <= 0.0
  {
    DueTokens(s, c, now);
  }

  lemma ReleasedPaid(s: State, c: Config, now: real, burst: real)
    requires c.Valid() && Paid(s.sent, s.tokens, s.last, c) && s.last <= now && s.queue != []
    requires Conforms(s.sent, c, burst) && Released(s, c, now).tokens >= c.Depth() - burst
    ensures var r := Released(s, c, now); Paid(r.sent, r.tokens, r.last, c) && Conforms(r.sent, c, burst)
  {
    var tokens := Refilled(s.tokens, s.last, c, now);
    RefillPaid(s.sent, s.tokens, s.last, c, now);
    SendPaid(s.sent, tokens, now, c, s.queue[0]);
    SendConforms(s.sent, tokens, now, c, s.queue[0], burst);
  }

  lemma ReleasedOrder(s: State, c: Config, now: real)
    requires Order(s, c) && s.queue != [] && forall i | 0 <= i < |s.sent| :: s.sent[i].at <= now
    ensures Order(Released(s, c, now), c)
  {
    var r := Released(s, c, now);
    assert Packets(r.sent) == Packets(s.sent) + [s.queue[0]];
    assert r.accepted == Packets(r.sent) + r.queue;
  }

  lemma TimeoutOk(s: State, c: Config, clock: real, now: real, most: real)
    requires c.Valid() && Ok(s, c, clock, most) && s.timer == Due(now) && s.queue != [] && !s.init
    requires Bits(s.queue[0]) <= most
    ensures Ok(Timeout(s, c, now), c, now, most)
  {
    var r := Released(s, c, now);
    ReleasedTokens(s, c, now, most);
    ReleasedPaid(s, c, now, Larger(c.Depth(), most));
    ReleasedOrder(s, c, now);
    if r.queue != [] {
      ScheduleOk(r, c);
    }
  }

  ghost predicate Offered(es: seq<Event>, most: real) {
    most >= 0.0 && forall i | 0 <= i < |es| && es[i].Arrival? :: Bits(es[i].pkt) <= most
  }

  ghost predicate Waiting(s: State, most: real) {
    forall i | 0 <= i < |s.queue| :: Bits(s.queue[i]) <= most
  }

  lemma RecvWaiting(s: State, c: Config, p: Packet, now: real, most: real)
    requires c.Valid() && Waiting(s, most) && Bits(p) <= most
    ensures Waiting(Recv(s, c, p, now), most)
  {
    var q := Recv(s, c, p, now).queue;
    assert q == s.queue || q == s.queue + [p] || q == [p];
  }

  lemma TimeoutWaiting(s: State, c: Config, now: real, most: real)
    requires c.Valid() && Waiting(s, most) && s.queue != []
    ensures Waiting(Timeout(s, c, now), most)
  {
    assert Timeout(s, c, now).queue == s.queue[1..];
  }

  lemma HeadWaits(s: State, most: real)
    requires Waiting(s, most) && s.queue != []
    ensures Bits(s.queue[0]) <= most
  {
  }

  lemma StepOk(c: Config, s: State, clock: real, e: Event, most: real)
    requires c.Valid() && Ok(s, c, clock, most) && Waiting(s, most) && Allowed(s, clock, e)
    requires e.Arrival? ==> Bits(e.pkt) <= most
    ensures Ok(Step(s, c, e), c, e.at, most) && Waiting(Step(s, c, e), most)
  {
    match e
    case Arrival(at, p) =>
      RecvOk(s, c, p, clock, at, most);
      RecvWaiting(s, c, p, at, most);
    case Expiry(at) =>
      HeadWaits(s, most);
      TimeoutOk(s, c, clock, at, most);
      TimeoutWaiting(s, c, at, most);
  }

  lemma StartOk(c: Config, most: real)
    requires c.Valid() && most >= 0.0
    ensures Ok(Start, c, 0.0, most) && Waiting(Start, most)
  {
    forall a: real, b: real | a <= b ensures Between(Start.sent, a, b) <= Larger(c.Depth(), most) + c.Income(b - a) {
      Accrues(c, b - a);
      assert c.Depth() >= 0.0;
    }
  }

  lemma {:induction false} RunOk(c: Config, es: seq<Event>, most: real)
    requires c.Valid() && Legal(c, es) && Offered(es, most)
    ensures Ok(After(c, es), c, Clock(es), most) && Waiting(After(c, es), most)
    decreases |es|
  {
    if es == [] {
      StartOk(c, most);
    } else {
      var front := es[..|es| - 1];
      RunOk(c, front, most);
      StepOk(c, After(c, front), Clock(front), es[|es| - 1], most);
    }
  }

  // ----- main results -----

  /** Whatever arrives when: in every interval the bits sent are at most the depth of the bucket, or the largest
      packet if that is more, and what the rate allows; packets leave in the order in which they were accepted. */
  lemma Conformance(c: Config, es: seq<Event>, most: real)
    requires c.Valid() && Legal(c, es) && Offered(es, most)
    ensures Conforms(After(c, es).sent, c, Larger(c.Depth(), most)) && Order(After(c, es), c)
  {
    RunOk(c, es, most);
  }

  /** The classic bound, with the depth of the bucket as the burst, holds for exactly the runs that send no
      packet larger than the bucket. */
  lemma ConformsIff(c: Config, es: seq<Event>, most: real)
    requires c.Valid() && Legal(c, es) && Offered(es, most)
    ensures Conforms(After(c, es).sent, c, c.Depth()) <==> Sizes(Packets(After(c, es).sent), c.Depth())
  {
    var ds := After(c, es).sent;
    if Conforms(ds, c, c.Depth()) {
      forall i | 0 <= i < |ds| ensures Bits(ds[i].pkt) <= c.Depth() {
        BetweenHas(ds, i);
        assert Between(ds, ds[i].at, ds[i].at) <= c.Depth() + c.Income(ds[i].at - ds[i].at);
      }
    }
    if Sizes(Packets(ds), c.Depth()) {
      SentFits(c, es, most);
    }
  }

  /** The bound only needs the packets sent to fit the bucket, not those that wait or were dropped. */
  lemma {:induction false} SentFits(c: Config, es: seq<Event>, most: real)
    requires c.Valid() && Legal(c, es) && Offered(es, most)
    requires Sizes(Packets(After(c, es).sent), c.Depth())
    ensures Conforms(After(c, es).sent, c, c.Depth())
    ensures 0.0 <= After(c, es).tokens <= c.Depth()
    decreases |es|
  {
    if es == [] {
      RunOk(c, es, 0.0);
    } else {
      var front, e := es[..|es| - 1], es[|es| - 1];
      var s := After(c, front);
      RunOk(c, front, most);
      SentMore(c, es, s);
      PacketsPrefix(s.sent, After(c, es).sent, c.Depth());
      SentFits(c, front, most);
      match e
      case Arrival(at, p) => FitsRecv(s, c, p, Clock(front), at, most);
      case Expiry(at) =>
        assert Packets(After(c, es).sent)[|s.sent|] == s.queue[0];
        FitsTimeout(s, c, Clock(front), at, most);
    }
  }

  lemma RecvSends(s: State, c: Config, p: Packet, now: real)
    requires c.Valid()
    ensures s.sent <= Recv(s, c, p, now).sent
  {
  }

  lemma TimeoutSends(s: State, c: Config, now: real)
    requires c.Valid() && s.queue != []
    ensures Timeout(s, c, now).sent == s.sent + [Departure(now, s.queue[0])]
  {
  }

  lemma PacketsPrefix(ds: seq<Departure>, ds': seq<Departure>, most: real)
    requires ds <= ds' && Sizes(Packets(ds'), most)
    ensures Sizes(Packets(ds), most)
  {
    forall i | 0 <= i < |ds| ensures Bits(Packets(ds)[i]) <= most {
      assert Packets(ds)[i] == Packets(ds')[i];
    }
  }

  lemma SentMore(c: Config, es: seq<Event>, s: State)
    requires c.Valid() && Legal(c, es) && es != [] && s == After(c, es[..|es| - 1])
    ensures s.sent <= After(c, es).sent
    ensures es[|es| - 1].Expiry? ==>
              s.queue != [] && After(c, es).sent == s.sent + [Departure(es[|es| - 1].at, s.queue[0])]
  {
    match es[|es| - 1]
    case Arrival(at, p) => RecvSends(s, c, p, at);
    case Expiry(at) => TimeoutSends(s, c, at);
  }

  /** The classic bound holds so far, and no tokens are owed. */
  ghost predicate Fits(s: State, c: Config) {
    Conforms(s.sent, c, c.Depth()) && 0.0 <= s.tokens <= c.Depth()
  }

  lemma FitsMeet(r: State, c: Config, p: Packet, now: real)
    requires c.Valid() && Paid(r.sent, r.tokens, r.last, c) && r.last == now && Fits(r, c)
    ensures Fits(Meet(r, c, p, now), c)
  {
    if r.tokens >= Bits(p) {
      SendConforms(r.sent, r.tokens, now, c, p, c.Depth());
    }
  }

  lemma FitsRecv(s0: State, c: Config, p: Packet, clock: real, now: real, most: real)
    requires c.Valid() && Ok(s0, c, clock, most) && clock <= now && Fits(s0, c)
    ensures Fits(Recv(s0, c, p, now), c)
  {
    var s := First(s0, c, now);
    FirstOk(s0, c, clock, now, most);
    if s.queue == [] {
      RefillTokens(s.tokens, s.last, c, now, 0.0);
      RefillPaid(s.sent, s.tokens, s.last, c, now);
      FitsMeet(Refill(s, c, now), c, p, now);
    }
  }

  lemma FitsTimeout(s: State, c: Config, clock: real, now: real, most: real)
    requires c.Valid() && Ok(s, c, clock, most) && s.timer == Due(now) && s.queue != [] && !s.init
    requires Conforms(s.sent, c, c.Depth()) && Bits(s.queue[0]) <= c.Depth()
    ensures Fits(Timeout(s, c, now), c)
  {
    DueTokens(s, c, now);
    ReleasedPaid(s, c, now, c.Depth());
  }

  /** It happens: a packet larger than the bucket waits alone, and is let go when the timer is due. */
  lemma Oversized(c: Config, p: Packet)
    requires c.Valid() && c.qlen != 0 && Bits(p) > c.Depth()
    ensures var at := (Bits(p) - c.Depth()) / c.rate;
            var es := [Arrival(0.0, p), Expiry(at)];
            && Legal(c, es) && After(c, es).sent == [Departure(at, p)]
            && !Conforms(After(c, es).sent, c, c.Depth())
  {
    var at := (Bits(p) - c.Depth()) / c.rate;
    var es := [Arrival(0.0, p), Expiry(at)];
    assert es[..1] == [Arrival(0.0, p)] && es[..1][..0] == [];
    assert c.Income(0.0) == 0.0;
    assert at >= 0.0;
    assert Legal(c, []) && Legal(c, es[..1]);
    var s := After(c, es[..1]);
    assert c.Income(0.0 - 0.0) == 0.0;
    assert Refilled(c.Depth(), 0.0, c, 0.0) == c.Depth();
    assert After(c, []) == Start && s == Recv(Start, c, p, 0.0);
    assert s.queue == [p] && s.sent == [] && s.timer == Due(0.0 + at);
    var ds := After(c, es).sent;
    assert ds == [Departure(at, p)];
    BetweenHas(ds, 0);
    assert c.Income(at - at) == 0.0;
    assert Between(ds, at, at) > c.Depth() + c.Income(at - at);
  }

  /** No packet larger than this is offered. */
  ghost predicate OfferedUpTo(es: seq<Event>, most: nat) {
    forall i | 0 <= i < |es| && es[i].Arrival? :: es[i].pkt.size <= most
  }

  /** Without a queue the filter only lets through what it has the tokens for. */
  lemma {:induction false} QueuelessConforms(c: Config, es: seq<Event>, most: real)
    requires c.Valid() && Legal(c, es) && Offered(es, most) && c.qlen == 0
    ensures Fits(After(c, es), c)
    decreases |es|
  {
    if es == [] {
      RunOk(c, es, 0.0);
    } else {
      var front, e := es[..|es| - 1], es[|es| - 1];
      RunOk(c, front, most);
      QueuelessConforms(c, front, most);
      assert After(c, front).queue == [];
      FitsRecv(After(c, front), c, e.pkt, Clock(front), e.at, most);
    }
  }

  lemma EnoughConforms(c: Config, es: seq<Event>, most: nat)
    requires c.Valid() && Legal(c, es) && OfferedUpTo(es, most) && (8 * most <= c.bucket || c.qlen == 0)
    ensures Conforms(After(c, es).sent, c, c.Depth())
  {
    if c.qlen == 0 {
      QueuelessConforms(c, es, (8 * most) as real);
    } else {
      Conformance(c, es, (8 * most) as real);
    }
  }

  lemma SomeFails(c: Config, most: nat) returns (es: seq<Event>)
    requires c.Valid() && 8 * most > c.bucket && c.qlen != 0
    ensures Legal(c, es) && OfferedUpTo(es, most) && !Conforms(After(c, es).sent, c, c.Depth())
  {
    var p := Packet(0, most);
    Oversized(c, p);
    es := [Arrival(0.0, p), Expiry((Bits(p) - c.Depth()) / c.rate)];
  }

  /** Whatever arrives when, the classic bound holds, if and only if the packets that may be offered fit the bucket or
      there is no queue. */
  lemma ConformsWheneverIff(c: Config, most: nat)
    requires c.Valid()
    ensures (forall es | Legal(c, es) && OfferedUpTo(es, most) :: Conforms(After(c, es).sent, c, c.Depth()))
            <==> 8 * most <= c.bucket || c.qlen == 0
  {
    if 8 * most <= c.bucket || c.qlen == 0 {
      forall es | Legal(c, es) && OfferedUpTo(es, most) ensures Conforms(After(c, es).sent, c, c.Depth()) {
        EnoughConforms(c, es, most);
      }
    } else {
      var es := SomeFails(c, most);
    }
  }

  /** A packet that the timer releases finds exactly as many tokens as it has bits, if it fits the bucket,
      and the tokens are then used up. */
  lemma ReleasedOnTime(c: Config, es: seq<Event>, most: real)
    requires c.Valid() && Legal(c, es) && Offered(es, most) && es != [] && es[|es| - 1].Expiry?
    ensures var s := After(c, es[..|es| - 1]); var s' := After(c, es); var p := s.queue[0];
            && s'.sent == s.sent + [Departure(Clock(es), p)]
            && (s'.tokens == 0.0 <==> Bits(p) <= c.Depth())
  {
    var front := es[..|es| - 1];
    RunOk(c, front, most);
    ReleasedExactly(After(c, front), c, Clock(es));
  }

  lemma ReleasedExactly(s: State, c: Config, now: real)
    requires c.Valid() && TimerOk(s, c) && s.timer == Due(now) && s.queue != []
    ensures Timeout(s, c, now).sent == s.sent + [Departure(now, s.queue[0])]
    ensures Timeout(s, c, now).tokens == 0.0 <==> Bits(s.queue[0]) <= c.Depth()
  {
    DueTokens(s, c, now);
  }
}
