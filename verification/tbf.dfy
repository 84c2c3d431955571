// The token bucket filter as an object, and the two events that change it (ns-2.35/adc/tbf.cc).
module Tbf {
  import opened TokenBucket

  class Filter {
    const c: Config
    var init: bool
    var tokens: real
    var last: real
    var queue: seq<Packet>
    var timer: Timer
    ghost var sent: seq<Departure>
    ghost var accepted: seq<Packet>
    ghost var dropped: seq<Packet>

    ghost function View(): State
      reads this
    {
      State(init, tokens, last, queue, timer, sent, accepted, dropped)
    }

    constructor (c: Config)
      ensures this.c == c && View() == Start
    {
      this.c := c;
      init, tokens, last, queue, timer := true, 0.0, 0.0, [], Idle;
      sent, accepted, dropped := [], [], [];
    }

    method GetUpdatedTokens(now: real)
      modifies `tokens, `last
      ensures View() == Refill(old(View()), c, now)
    {
      tokens := tokens + (now - last) * c.rate;
      if tokens > c.bucket as real {
        tokens := c.bucket as real;
      }
      last := now;
    }

    method Recv(p: Packet, now: real)
      requires c.Valid()
      modifies this
      ensures View() == TokenBucket.Recv(old(View()), c, p, now)
    {
      if init {
        tokens := c.bucket as real;
        last := now;
        init := false;
      }
      if |queue| != 0 {
        if |queue| < c.qlen {
          queue := queue + [p];
          accepted := accepted + [p];
          return;
        }
        dropped := dropped + [p];
        return;
      }
      GetUpdatedTokens(now);
      var pktsize := (p.size * 8) as real;
      if tokens >= pktsize {
        sent := sent + [Departure(now, p)];
        accepted := accepted + [p];
        tokens := tokens - pktsize;
      } else if c.qlen != 0 {
        queue := queue + [p];
        accepted := accepted + [p];
        timer := Due(now + (pktsize - tokens) / c.rate);
      } else {
        dropped := dropped + [p];
      }
    }

    /** The "ERROR in tbf" exit is for a timer that runs while nothing waits; TimerOk rules that out. */
    method Timeout(now: real)
      requires c.Valid() && TimerOk(View(), c) && timer == Due(now)
      modifies this
      ensures View() == TokenBucket.Timeout(old(View()), c, now)
    {
      timer := Idle;
      var p := queue[0];
      queue := queue[1..];
      GetUpdatedTokens(now);
      var pktsize := (p.size * 8) as real;
      sent := sent + [Departure(now, p)];
      tokens := tokens - pktsize;
      if |queue| != 0 {
        pktsize := (queue[0].size * 8) as real;
        timer := Due(now + (pktsize - tokens) / c.rate);
      }
    }
  }
}
