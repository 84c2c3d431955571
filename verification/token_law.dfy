// The token bucket filter without its tokens: which packets it sends when, keeps waiting and drops, told by what it has
// sent so far and the bound on traffic alone. It sends each packet at the first moment the bound lets it.
module TokenLaw {
  import opened TokenBucket

  /** With the packet sent now, no interval up to now has more bits than bucket and rate allow. */
  ghost predicate Keeps(ds: seq<Departure>, c: Config, p: Packet, now: real) {
    forall a | a <= now ::
      Between(ds + [Departure(now, p)], a, now) <= c.bucket as real + (now - a) * c.rate
  }

  /** Some interval up to `last` has used the bound up, but for the tokens. */
  ghost predicate Used(ds: seq<Departure>, tokens: real, last: real, c: Config, a: real) {
    a <= last && Between(ds, a, last) + tokens == c.Depth() + c.Income(last - a)
  }

  ghost predicate Tight(ds: seq<Departure>, tokens: real, last: real, c: Config) {
    exists a :: Used(ds, tokens, last, c, a)
  }

  lemma RefillTight(ds: seq<Departure>, tokens: real, last: real, c: Config, now: real)
    requires c.Valid() && Paid(ds, tokens, last, c) && Tight(ds, tokens, last, c) && tokens <= c.Depth() && last <= now
    ensures Tight(ds, Refilled(tokens, last, c, now), now, c)
  {
    if tokens + c.Income(now - last) <= c.Depth() {
      var a :| Used(ds, tokens, last, c, a);
      BetweenAll(ds, a, last, now);
      Adds(c, a, last, now);
      assert Used(ds, Refilled(tokens, last, c, now), now, c, a);
    } else {
      assert now > last by {
        assert now == last ==> c.Income(now - last) == 0.0;
      }
      BetweenNone(ds, now, now);
      assert c.Income(now - now) == 0.0;
      assert Used(ds, Refilled(tokens, last, c, now), now, c, now);
    }
  }

  lemma SendTight(ds: seq<Departure>, tokens: real, last: real, c: Config, p: Packet)
    requires Tight(ds, tokens, last, c)
    ensures Tight(ds + [Departure(last, p)], tokens - Bits(p), last, c)
  {
    var a :| Used(ds, tokens, last, c, a);
    BetweenPush(ds, Departure(last, p), a, last);
    assert Used(ds + [Departure(last, p)], tokens - Bits(p), last, c, a);
  }

  /** There are tokens for a packet exactly if sending it keeps the bound. */
  lemma EnoughIff(ds: seq<Departure>, tokens: real, now: real, c: Config, p: Packet)
    requires Paid(ds, tokens, now, c) && Tight(ds, tokens, now, c)
    ensures tokens >= Bits(p) <==> Keeps(ds, c, p, now)
  {
    forall a | a <= now
      ensures Between(ds + [Departure(now, p)], a, now) == Between(ds, a, now) + Bits(p)
    {
      BetweenPush(ds, Departure(now, p), a, now);
    }
    if Keeps(ds, c, p, now) {
      var a :| Used(ds, tokens, now, c, a);
      assert Between(ds + [Departure(now, p)], a, now) <= c.Depth() + c.Income(now - a);
    }
    if tokens >= Bits(p) {
      forall a | a <= now ensures Between(ds + [Departure(now, p)], a, now) <= c.bucket as real + (now - a) * c.rate {
        assert Between(ds, a, now) + tokens <= c.Depth() + c.Income(now - a);
      }
    }
  }

  // ----- runs -----

  ghost predicate Exact(s: State, c: Config) {
    !s.init ==> Tight(s.sent, s.tokens, s.last, c)
  }

  lemma {:induction false} SomeMost(es: seq<Event>) returns (most: real)
    ensures Offered(es, most)
  {
    if es == [] {
      most := 0.0;
    } else {
      var front, e := es[..|es| - 1], es[|es| - 1];
      most := SomeMost(front);
      if e.Arrival? {
        most := Larger(most, Bits(e.pkt));
      }
      assert forall i | 0 <= i < |front| :: front[i] == es[i];
    }
  }

  /** The tokens there are for a packet that arrives now. */
  function Have(s: State, c: Config, now: real): real {
    Refilled(First(s, c, now).tokens, First(s, c, now).last, c, now)
  }

  lemma HaveExact(s: State, c: Config, clock: real, now: real, most: real)
    requires c.Valid() && Ok(s, c, clock, most) && Exact(s, c) && clock <= now
    ensures Paid(s.sent, Have(s, c, now), now, c) && Tight(s.sent, Have(s, c, now), now, c)
  {
    FirstOk(s, c, clock, now, most);
    var f := First(s, c, now);
    if s.init {
      assert Between([], now, now) == 0.0 && c.Income(now - now) == 0.0;
      assert Used(f.sent, f.tokens, now, c, now);
    }
    RefillPaid(f.sent, f.tokens, f.last, c, now);
    RefillTight(f.sent, f.tokens, f.last, c, now);
  }

  /** An arrival leaves the tokens it finds, or sends itself with them. */
  lemma RecvUses(s: State, c: Config, p: Packet, now: real)
    requires c.Valid() && (s.init ==> s == Start)
    ensures var s', have := Recv(s, c, p, now), Have(s, c, now);
            if s.queue != [] then s'.sent == s.sent && s'.tokens == s.tokens && s'.last == s.last && s'.init == s.init
            else s'.last == now && ((s'.sent == s.sent && s'.tokens == have)
                                    || (s'.sent == s.sent + [Departure(now, p)] && s'.tokens == have - Bits(p)))
  {
  }

  lemma RecvExact(s: State, c: Config, p: Packet, clock: real, now: real, most: real)
    requires c.Valid() && Ok(s, c, clock, most) && Exact(s, c) && clock <= now
    ensures Exact(Recv(s, c, p, now), c)
  {
    hide Tight, Paid, Recv, Have, Conforms;
    RecvUses(s, c, p, now);
    if s.queue == [] {
      HaveExact(s, c, clock, now, most);
      SendTight(s.sent, Have(s, c, now), now, c, p);
    }
  }

  lemma TimeoutExact(s: State, c: Config, clock: real, now: real, most: real)
    requires c.Valid() && Ok(s, c, clock, most) && Exact(s, c) && clock <= now && s.queue != [] && !s.init
    ensures Exact(Timeout(s, c, now), c)
  {
    RefillTight(s.sent, s.tokens, s.last, c, now);
    SendTight(s.sent, Refilled(s.tokens, s.last, c, now), now, c, s.queue[0]);
  }

  lemma {:induction false} RunExact(c: Config, es: seq<Event>, most: real)
    requires c.Valid() && Legal(c, es) && Offered(es, most)
    ensures Exact(After(c, es), c)
    decreases |es|
  {
    if es != [] {
      var front, e := es[..|es| - 1], es[|es| - 1];
      RunExact(c, front, most);
      RunOk(c, front, most);
      match e
      case Arrival(at, p) => RecvExact(After(c, front), c, p, Clock(front), at, most);
      case Expiry(at) => TimeoutExact(After(c, front), c, Clock(front), at, most);
    }
  }

  // ----- main results -----

  /** The packet is dropped: packets wait and the queue is full, or there is no queue and sending it would break the
      bound. */
  ghost predicate MustDrop(s: State, c: Config, p: Packet, now: real) {
    if s.queue != [] then |s.queue| == c.qlen else c.qlen == 0 && !Keeps(s.sent, c, p, now)
  }

  /** The packet leaves as it arrives: nobody waits and the bound allows it. */
  ghost predicate MayPass(s: State, c: Config, p: Packet, now: real) {
    s.queue == [] && Keeps(s.sent, c, p, now)
  }

  /** What the filter does with an arrival. */
  ghost predicate Arrives(s: State, c: Config, p: Packet, now: real, s': State) {
    && s'.dropped == (if MustDrop(s, c, p, now) then s.dropped + [p] else s.dropped)
    && s'.accepted == (if MustDrop(s, c, p, now) then s.accepted else s.accepted + [p])
    && s'.sent == (if MayPass(s, c, p, now) then s.sent + [Departure(now, p)] else s.sent)
    && s'.queue == (if MustDrop(s, c, p, now) || MayPass(s, c, p, now) then s.queue else s.queue + [p])
  }

  lemma ArrivesBy(s: State, c: Config, p: Packet, now: real)
    requires c.Valid() && |s.queue| <= c.qlen && (s.init ==> s == Start)
    requires Have(s, c, now) >= Bits(p) <==> Keeps(s.sent, c, p, now)
    ensures Arrives(s, c, p, now, TokenBucket.Recv(s, c, p, now))
  {
    hide Keeps, Bits;
  }

  /** In every run, an arrival is dropped, sent at once or put in the queue as the packets sent so far, the bound and
      the queue say. */
  lemma ArrivalLaw(c: Config, es: seq<Event>, p: Packet, now: real)
    requires c.Valid() && Legal(c, es) && Allowed(After(c, es), Clock(es), Arrival(now, p))
    ensures Arrives(After(c, es), c, p, now, Step(After(c, es), c, Arrival(now, p)))
  {
    var most := SomeMost(es);
    var s := After(c, es);
    RunOk(c, es, most);
    RunExact(c, es, most);
    HaveExact(s, c, Clock(es), now, most);
    EnoughIff(s.sent, Have(s, c, now), now, c, p);
    ArrivesBy(s, c, p, now);
  }

  /** The head of the queue is due when the tokens, not counting the depth of the bucket, are as many as its bits; if it
      fits the bucket, that is the first moment at which the bound lets it go. */
  ghost predicate HeadDue(s: State, c: Config)
    requires s.queue != []
  {
    && s.timer.Due? && s.tokens + (s.timer.at - s.last) * c.rate == Bits(s.queue[0])
    && (8 * s.queue[0].size <= c.bucket ==> FirstChance(s, c, s.timer.at))
  }

  ghost predicate FirstChance(s: State, c: Config, due: real)
    requires s.queue != []
  {
    forall t | s.last <= t <= due :: Keeps(s.sent, c, s.queue[0], t) <==> t == due
  }

  /** In every run the packet that waits first is due at the right time. */
  lemma HeadLaw(c: Config, es: seq<Event>)
    requires c.Valid() && Legal(c, es) && After(c, es).queue != []
    ensures HeadDue(After(c, es), c)
  {
    var most := SomeMost(es);
    RunOk(c, es, most);
    RunExact(c, es, most);
    HeadIsDue(After(c, es), c);
  }

  lemma HeadIsDue(s: State, c: Config)
    requires c.Valid() && Paid(s.sent, s.tokens, s.last, c) && Tight(s.sent, s.tokens, s.last, c)
    requires TimerOk(s, c) && s.tokens <= c.Depth() && s.queue != []
    ensures HeadDue(s, c)
  {
    if 8 * s.queue[0].size <= c.bucket {
      forall t | s.last <= t <= s.timer.at ensures Keeps(s.sent, c, s.queue[0], t) <==> t == s.timer.at {
        HeadKeeps(s, c, t);
      }
    }
  }

  lemma HeadKeeps(s: State, c: Config, t: real)
    requires c.Valid() && Paid(s.sent, s.tokens, s.last, c) && Tight(s.sent, s.tokens, s.last, c)
    requires TimerOk(s, c) && s.tokens <= c.Depth()
    requires s.queue != [] && 8 * s.queue[0].size <= c.bucket && s.last <= t <= s.timer.at
    ensures Keeps(s.sent, c, s.queue[0], t) <==> t == s.timer.at
  {
    RefillPaid(s.sent, s.tokens, s.last, c, t);
    RefillTight(s.sent, s.tokens, s.last, c, t);
    EnoughIff(s.sent, Refilled(s.tokens, s.last, c, t), t, c, s.queue[0]);
    DueExactly(s, c, t);
  }

  lemma DueExactly(s: State, c: Config, t: real)
    requires c.Valid() && TimerOk(s, c) && s.queue != [] && s.last <= t <= s.timer.at
    requires Bits(s.queue[0]) <= c.Depth()
    ensures Refilled(s.tokens, s.last, c, t) >= Bits(s.queue[0]) <==> t == s.timer.at
  {
    Adds(c, s.last, t, s.timer.at);
    assert t < s.timer.at ==> c.Income(s.timer.at - t) > 0.0;
  }

  function Arrivals(es: seq<Event>): seq<Packet> {
    if es == [] then []
    else Arrivals(es[..|es| - 1]) + if es[|es| - 1].Arrival? then [es[|es| - 1].pkt] else []
  }

  /** all is made of a and b, each in its order. */
  ghost predicate Merged(a: seq<Packet>, b: seq<Packet>, all: seq<Packet>)
    decreases |all|
  {
    if all == [] then a == [] && b == []
    else
      var rest, last := all[..|all| - 1], all[|all| - 1];
      || (a != [] && a[|a| - 1] == last && Merged(a[..|a| - 1], b, rest))
      || (b != [] && b[|b| - 1] == last && Merged(a, b[..|b| - 1], rest))
  }

  /** Every packet offered is accepted or dropped, once and in order; the accepted ones were sent, in order, or wait. */
  lemma {:induction false} EveryArrival(c: Config, es: seq<Event>)
    requires c.Valid() && Legal(c, es)
    ensures var s := After(c, es);
            && Merged(s.accepted, s.dropped, Arrivals(es))
            && s.accepted == Packets(s.sent) + s.queue
    decreases |es|
  {
    AcceptedWaits(c, es);
    if es != [] {
      EveryArrival(c, es[..|es| - 1]);
      LastMerged(c, es);
    }
  }

  lemma AcceptedWaits(c: Config, es: seq<Event>)
    requires c.Valid() && Legal(c, es)
    ensures After(c, es).accepted == Packets(After(c, es).sent) + After(c, es).queue
  {
    var most := SomeMost(es);
    Conformance(c, es, most);
  }

  lemma LastMerged(c: Config, es: seq<Event>)
    requires c.Valid() && Legal(c, es) && es != []
    requires var s := After(c, es[..|es| - 1]); Merged(s.accepted, s.dropped, Arrivals(es[..|es| - 1]))
    ensures Merged(After(c, es).accepted, After(c, es).dropped, Arrivals(es))
  {
    hide Merged, TokenBucket.Recv, TokenBucket.Timeout;
    var front, e := es[..|es| - 1], es[|es| - 1];
    var s, s' := After(c, front), After(c, es);
    if e.Arrival? {
      ArrivalLaw(c, front, e.pkt, e.at);
      assert Arrivals(es) == Arrivals(front) + [e.pkt];
      ArrivalMerged(s, c, e.pkt, e.at, s', Arrivals(front));
    } else {
      ExpiryKeeps(s, c, e.at);
      assert Arrivals(es) == Arrivals(front);
    }
  }

  lemma ArrivalMerged(s: State, c: Config, p: Packet, now: real, s': State, all: seq<Packet>)
    requires Arrives(s, c, p, now, s') && Merged(s.accepted, s.dropped, all)
    ensures Merged(s'.accepted, s'.dropped, all + [p])
  {
    MergedMore(s.accepted, s.dropped, all, p);
  }

  lemma ExpiryKeeps(s: State, c: Config, now: real)
    requires c.Valid() && s.queue != []
    ensures Timeout(s, c, now).accepted == s.accepted && Timeout(s, c, now).dropped == s.dropped
  {
  }

  lemma MergedMore(a: seq<Packet>, b: seq<Packet>, all: seq<Packet>, p: Packet)
    requires Merged(a, b, all)
    ensures Merged(a + [p], b, all + [p]) && Merged(a, b + [p], all + [p])
  {
    assert (all + [p])[..|all|] == all && (a + [p])[..|a|] == a && (b + [p])[..|b|] == b;
  }
}
