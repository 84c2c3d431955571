// The rate allocator newupdate of ns-2.35/asim/asim.cc: long flows are scaled bottleneck by
// bottleneck, over exact reals, until no link with capacity left has a flow left to scale.
module Asim {
  import opened AsimLoad
  import opened Common

  /** How often a route crosses a link; a route may name a link twice. */
  function Count(route: seq<nat>, l: nat): (c: nat)
    ensures c > 0 <==> l in route
  {
    if route == [] then 0
    else
      var rest, last := route[..|route| - 1], route[|route| - 1];
      assert route == rest + [last];
      Count(rest, l) + if last == l then 1 else 0
  }

  /** The flows through a link, once for every time they cross it, in order. */
  function Through(adj: seq<seq<nat>>, l: nat, n: nat): (ts: seq<nat>)
    requires n <= |adj|
    ensures forall t: nat :: t in ts <==> (t < n && l in adj[t])
  {
    if n == 0 then []
    else
      var last: seq<nat> := seq(Count(adj[n - 1], l), _ => n - 1);
      assert last != [] ==> last[0] == n - 1;
      Through(adj, l, n - 1) + last
  }

  lemma CarriedPrefix(route: seq<nat>, j: nat, x: real)
    requires j < |route|
    ensures forall l :: Carried(route[..j + 1], l, x) == Carried(route[..j], l, x) + if route[j] == l then x else 0.0
  {
    assert route[..j + 1][..j] == route[..j];
  }

  lemma CountPrefix(route: seq<nat>, j: nat, l: nat)
    requires j < |route|
    ensures Count(route[..j + 1], l) == Count(route[..j], l) + if route[j] == l then 1 else 0
  {
    assert route[..j + 1][..j] == route[..j];
  }

  lemma DivAtMost(a: real, b: real, g: real)
    requires b > 0.0 && a / b <= g
    ensures a <= g * b
  {
    assert a == (a / b) * b;
  }

  // ----- progressive filling, seen on values: rates x, unscaled capacity uc and throughput ut -----

  ghost predicate Sized(p: Problem, x: seq<real>, uc: seq<real>, ut: seq<real>) {
    p.Valid() && |x| == |p.adj| && |uc| == |ut| == |p.capacity|
  }

  /** The books are right: u are the flows not scaled yet, and each link counts exactly what they
      send unscaled and what the scaled ones left of its capacity. */
  ghost predicate Books(p: Problem, u: set<nat>, x: seq<real>, uc: seq<real>, ut: seq<real>)
    requires Sized(p, x, uc, ut)
  {
    && u <= p.flows
    && (forall f | f in u :: x[f] == p.weight[f])
    && (forall f | f in p.flows - u :: if p.weight[f] > 0.0 then x[f] > 0.0 else x[f] == 0.0)
    && (forall l | 0 <= l < |uc| :: ut[l] == Load(p.adj, p.weight, u, l))
    && (forall l | 0 <= l < |uc| :: uc[l] == p.capacity[l] - Load(p.adj, x, p.flows - u, l))
  }

  /** Scaling f is over: link l is used up and everything on it is scaled, nothing more than f. */
  ghost predicate Settled(p: Problem, u: set<nat>, x: seq<real>, uc: seq<real>, f: nat, l: nat)
    requires p.Valid() && |x| == |p.adj| && |uc| == |p.capacity| && f < |p.adj|
  {
    && l in p.adj[f] && l < |uc| && uc[l] == 0.0
    && forall g | 0 <= g < |p.adj| && g in p.flows && l in p.adj[g] :: g !in u && p.AtMost(x, g, f)
  }

  /** At filling level gamma no link is overdrawn, no scaled flow got more than this level allows, and each has a
      link that settles it. */
  ghost predicate Filled(p: Problem, u: set<nat>, x: seq<real>, uc: seq<real>, ut: seq<real>, gamma: real)
    requires Sized(p, x, uc, ut)
  {
    && (forall l | 0 <= l < |uc| :: uc[l] >= 0.0 && ut[l] <= gamma * uc[l])
    && (forall f | f in p.flows - u :: x[f] * gamma <= p.weight[f])
    && (forall f | f in p.flows - u && p.weight[f] > 0.0 :: exists l :: Settled(p, u, x, uc, f, l))
  }

  /** The flows of u that are no longer in u' were scaled down by gamma, and the links changed in proportion. */
  ghost predicate Scaled(p: Problem, gamma: real, u: set<nat>, x: seq<real>, uc: seq<real>, ut: seq<real>,
                         u': set<nat>, x': seq<real>, uc': seq<real>, ut': seq<real>)
    requires Sized(p, x, uc, ut) && Sized(p, x', uc', ut')
  {
    && gamma > 0.0 && u' <= u <= p.flows
    && (forall f | f in u - u' :: x'[f] * gamma == p.weight[f])
    && (forall f | 0 <= f < |x| && f !in u - u' :: x'[f] == x[f])
    && (forall l | 0 <= l < |uc| :: (uc[l] - uc'[l]) * gamma == ut[l] - ut'[l])
  }

  lemma ScaledThen(p: Problem, gamma: real, u: set<nat>, x: seq<real>, uc: seq<real>, ut: seq<real>,
                   u': set<nat>, x': seq<real>, uc': seq<real>, ut': seq<real>,
                   u'': set<nat>, x'': seq<real>, uc'': seq<real>, ut'': seq<real>)
    requires Sized(p, x, uc, ut) && Sized(p, x', uc', ut') && Sized(p, x'', uc'', ut'')
    requires Scaled(p, gamma, u, x, uc, ut, u', x', uc', ut')
             && Scaled(p, gamma, u', x', uc', ut', u'', x'', uc'', ut'')
    ensures Scaled(p, gamma, u, x, uc, ut, u'', x'', uc'', ut'')
  {
    forall l | 0 <= l < |uc| ensures (uc[l] - uc''[l]) * gamma == ut[l] - ut''[l] {
      AddUp(uc[l], uc'[l], uc''[l], ut[l], ut'[l], ut''[l], gamma);
    }
    forall f | f in u - u'' ensures x''[f] * gamma == p.weight[f] {
      if f !in u' {
        assert x'[f] * gamma == p.weight[f];
      }
    }
  }

  /** The effect of scaling all unscaled flows of one link. */
  ghost predicate Rounded(p: Problem, b: nat, gamma: real, u: set<nat>, x: seq<real>, uc: seq<real>, ut: seq<real>,
                          u': set<nat>, x': seq<real>, uc': seq<real>, ut': seq<real>)
    requires Sized(p, x, uc, ut) && Sized(p, x', uc', ut')
  {
    && Scaled(p, gamma, u, x, uc, ut, u', x', uc', ut')
    && b < |uc| && uc'[b] == 0.0 == ut'[b]
    && u' == (set f | f in u && b !in p.adj[f])
  }

  /** Once no flow on the link is left to scale, the link is used up exactly. */
  lemma LinkDone(p: Problem, b: nat, gamma: real, u: set<nat>, x: seq<real>, uc: seq<real>, ut: seq<real>,
                 u': set<nat>, x': seq<real>, uc': seq<real>, ut': seq<real>)
    requires Sized(p, x, uc, ut) && Sized(p, x', uc', ut') && Books(p, u', x', uc', ut')
    requires Scaled(p, gamma, u, x, uc, ut, u', x', uc', ut')
    requires b < |uc| && ut[b] == gamma * uc[b] && u' == (set f | f in u && b !in p.adj[f])
    ensures Rounded(p, b, gamma, u, x, uc, ut, u', x', uc', ut')
  {
    LoadNone(p.adj, p.weight, u', b, |p.adj|);
    Drained(uc[b], uc'[b], ut[b], gamma);
  }

  lemma BooksNonNegative(p: Problem, u: set<nat>, x: seq<real>, uc: seq<real>, ut: seq<real>)
    requires Sized(p, x, uc, ut) && Books(p, u, x, uc, ut)
    ensures NonNegative(ut)
  {
    forall l | 0 <= l < |ut| ensures ut[l] >= 0.0 {
      LoadNonNegative(p.adj, p.weight, u, l, |p.adj|);
    }
  }

  lemma Shrink(a: real, a': real, b: real, b': real, gamma: real)
    requires gamma > 0.0 && (a - a') * gamma == b - b' && b <= gamma * a && b' >= 0.0
    ensures a' >= 0.0 && b' <= gamma * a'
  {
    assert gamma * a' == gamma * a - (b - b');
    assert a' == (gamma * a') / gamma;
  }

  /** The link of a round settles the flows just scaled. */
  lemma RoundSettles(p: Problem, b: nat, gamma: real, u: set<nat>, x: seq<real>, uc: seq<real>, ut: seq<real>,
                     u': set<nat>, x': seq<real>, uc': seq<real>, ut': seq<real>, f: nat)
    requires Sized(p, x, uc, ut) && Sized(p, x', uc', ut') && Books(p, u', x', uc', ut')
    requires Rounded(p, b, gamma, u, x, uc, ut, u', x', uc', ut')
    requires forall g | g in p.flows - u' :: x'[g] * gamma <= p.weight[g]
    requires f in u - u' && p.weight[f] > 0.0
    ensures Settled(p, u', x', uc', f, b)
  {
    forall g | 0 <= g < |p.adj| && g in p.flows && b in p.adj[g] ensures g !in u' && p.AtMost(x', g, f) {
      ScaledAtMost(x'[g], p.weight[g], x'[f], p.weight[f], gamma);
    }
  }

  /** One round keeps the level: the flows just scaled are settled by the link of the round. */
  lemma RoundKeepsFilled(p: Problem, b: nat, gamma: real, u: set<nat>, x: seq<real>, uc: seq<real>, ut: seq<real>,
                         u': set<nat>, x': seq<real>, uc': seq<real>, ut': seq<real>)
    requires Sized(p, x, uc, ut) && Sized(p, x', uc', ut') && Filled(p, u, x, uc, ut, gamma)
    requires Books(p, u, x, uc, ut) && Books(p, u', x', uc', ut')
    requires Rounded(p, b, gamma, u, x, uc, ut, u', x', uc', ut')
    ensures Filled(p, u', x', uc', ut', gamma)
  {
    BooksNonNegative(p, u', x', uc', ut');
    forall l | 0 <= l < |uc| ensures uc'[l] >= 0.0 && ut'[l] <= gamma * uc'[l] {
      Shrink(uc[l], uc'[l], ut[l], ut'[l], gamma);
    }
    forall f | f in p.flows - u' ensures x'[f] * gamma <= p.weight[f] {
    }
    forall f | f in p.flows - u' && p.weight[f] > 0.0 ensures exists l :: Settled(p, u', x', uc', f, l) {
      if f in u {
        RoundSettles(p, b, gamma, u, x, uc, ut, u', x', uc', ut', f);
      } else {
        var l :| Settled(p, u, x, uc, f, l);
        KeepSettled(p, b, gamma, u, x, uc, ut, u', x', uc', ut', f, l);
      }
    }
  }

  lemma ScaledAtMost(xg: real, wg: real, xf: real, wf: real, gamma: real)
    requires xf >= 0.0 && xg * gamma <= wg && xf * gamma == wf
    ensures xg * wf <= xf * wg
  {
    assert xg * wf == (xg * gamma) * xf;
    assert (xg * gamma) * xf <= wg * xf;
  }

  /** Flows on a settled link are all scaled already, so a later round does not touch the link. */
  lemma KeepSettled(p: Problem, b: nat, gamma: real, u: set<nat>, x: seq<real>, uc: seq<real>, ut: seq<real>,
                    u': set<nat>, x': seq<real>, uc': seq<real>, ut': seq<real>, f: nat, l: nat)
    requires Sized(p, x, uc, ut) && Sized(p, x', uc', ut')
    requires Books(p, u, x, uc, ut) && Books(p, u', x', uc', ut')
    requires Rounded(p, b, gamma, u, x, uc, ut, u', x', uc', ut')
    requires f in p.flows - u && Settled(p, u, x, uc, f, l)
    ensures Settled(p, u', x', uc', f, l)
  {
    LoadNone(p.adj, p.weight, u, l, |p.adj|);
    LoadNone(p.adj, p.weight, u', l, |p.adj|);
    assert (uc[l] - uc'[l]) * gamma == 0.0;
    assert uc'[l] == uc[l];
    forall g | 0 <= g < |p.adj| && g in p.flows && l in p.adj[g] ensures g !in u' && p.AtMost(x', g, f) {
      assert g !in u && p.AtMost(x, g, f);
    }
  }

  lemma Drained(a: real, a': real, b: real, gamma: real)
    requires gamma > 0.0 && (a - a') * gamma == b && b == gamma * a
    ensures a' == 0.0
  {
    assert a' * gamma == 0.0;
    assert a' == (a' * gamma) / gamma;
  }

  /** Whatever the capacities, the rates can only fit the links if these had room for them to begin with. */
  lemma FeasibleNeedsRoom(p: Problem, x: seq<real>, l: nat)
    requires p.Valid() && |x| == |p.adj| && p.Feasible(x) && l < |p.capacity|
    requires forall f | f in p.flows :: if p.weight[f] > 0.0 then x[f] > 0.0 else x[f] == 0.0
    ensures p.capacity[l] >= 0.0 && (Load(p.adj, p.weight, p.flows, l) > 0.0 ==> p.capacity[l] > 0.0)
  {
    LoadNonNegative(p.adj, x, p.flows, l, |p.adj|);
    if Load(p.adj, p.weight, p.flows, l) > 0.0 {
      var f := LoadHasFlow(p.adj, p.weight, p.flows, l, |p.adj|);
      LoadHolds(p.adj, x, p.flows, f, l, |p.adj|);
    }
  }

  lemma RatioAtMost(a: real, b: real, g: real, g': real)
    requires b > 0.0 && g' == a / b && a <= g * b
    ensures g' <= g
  {
    assert (g * b) / b == g;
    assert a / b <= (g * b) / b;
  }

  /** The largest ratio of what is left, or 0.0. */
  ghost predicate Level(uc: seq<real>, ut: seq<real>, gamma: real)
    requires |uc| == |ut|
  {
    && gamma >= 0.0
    && (gamma > 0.0 ==> exists l :: 0 <= l < |uc| && uc[l] != 0.0 && gamma == ut[l] / uc[l])
    && (forall l | 0 <= l < |uc| && uc[l] != 0.0 :: ut[l] / uc[l] <= gamma)
  }

  lemma LevelDrops(p: Problem, u: set<nat>, x: seq<real>, uc: seq<real>, ut: seq<real>, gamma: real, gamma': real)
    requires Sized(p, x, uc, ut) && Filled(p, u, x, uc, ut, gamma) && gamma > 0.0 && Level(uc, ut, gamma')
    ensures gamma' <= gamma
  {
    if gamma' > 0.0 {
      var l :| 0 <= l < |uc| && uc[l] != 0.0 && gamma' == ut[l] / uc[l];
      RatioAtMost(ut[l], uc[l], gamma, gamma');
    }
  }

  lemma LevelCovers(a: real, b: real, gamma: real, gamma': real)
    requires b >= 0.0 && a <= gamma * b && (b != 0.0 ==> a / b <= gamma')
    ensures a <= gamma' * b
  {
    if b != 0.0 {
      DivAtMost(a, b, gamma');
    } else {
      assert gamma * b == 0.0 == gamma' * b;
    }
  }

  /** Going on to the next bottleneck lowers the level, and keeps it. */
  lemma LowerLevel(p: Problem, u: set<nat>, x: seq<real>, uc: seq<real>, ut: seq<real>, gamma: real, gamma': real)
    requires Sized(p, x, uc, ut) && Books(p, u, x, uc, ut) && Filled(p, u, x, uc, ut, gamma)
    requires gamma > 0.0 && Level(uc, ut, gamma')
    ensures gamma' <= gamma && Filled(p, u, x, uc, ut, gamma')
  {
    LevelDrops(p, u, x, uc, ut, gamma, gamma');
    forall l | 0 <= l < |uc| ensures ut[l] <= gamma' * uc[l] {
      LevelCovers(ut[l], uc[l], gamma, gamma');
    }
    forall f | f in p.flows - u ensures x[f] * gamma' <= p.weight[f] {
      MonotoneProduct(x[f], gamma', gamma);
    }
  }

  lemma MonotoneProduct(x: real, g: real, h: real)
    requires x >= 0.0 && g <= h
    ensures x * g <= x * h
  {
    assert x * (h - g) >= 0.0;
  }

  /** When no link has both capacity and unscaled throughput left, the rates are bottlenecked and feasible. */
  lemma FilledUp(p: Problem, u: set<nat>, x: seq<real>, uc: seq<real>, ut: seq<real>)
    requires Sized(p, x, uc, ut) && Books(p, u, x, uc, ut) && Filled(p, u, x, uc, ut, 0.0)
    ensures p.Feasible(x) && p.Bottlenecked(x) && forall f | f in u :: p.weight[f] == 0.0
  {
    BooksNonNegative(p, u, x, uc, ut);
    forall f | f in u ensures p.weight[f] == 0.0 {
      var l := p.adj[f][0];
      assert l in p.adj[f];
      assert ut[l] <= 0.0 * uc[l];
      LoadHolds(p.adj, p.weight, u, f, l, |p.adj|);
    }
    forall l | 0 <= l < |uc| ensures Load(p.adj, x, p.flows, l) == p.capacity[l] - uc[l] {
      LoadSame(p.adj, x, x, p.flows, p.flows - u, l, |p.adj|);
    }
    forall f | 0 <= f < |p.adj| && f in p.flows && p.weight[f] > 0.0 ensures exists l :: p.Bottleneck(x, f, l) {
      var l :| Settled(p, u, x, uc, f, l);
      assert p.Bottleneck(x, f, l);
    }
  }

  /** x', uc' and ut' are what ScaleFlow makes of x, uc and ut. */
  ghost predicate OneScaled(p: Problem, t: nat, gamma: real, x: seq<real>, uc: seq<real>, ut: seq<real>,
                            x': seq<real>, uc': seq<real>, ut': seq<real>)
    requires Sized(p, x, uc, ut) && Sized(p, x', uc', ut') && t < |x|
  {
    && gamma > 0.0
    && x'[t] * gamma == x[t] && (forall f | 0 <= f < |x| && f != t :: x'[f] == x[f])
    && (forall l | 0 <= l < |uc| :: uc'[l] == uc[l] - Carried(p.adj[t], l, x'[t]))
    && (forall l | 0 <= l < |uc| :: ut'[l] == ut[l] - Carried(p.adj[t], l, x[t]))
  }

  /** Scaling one flow keeps the books. */
  lemma ScaleKeepsBooks(p: Problem, u: set<nat>, t: nat, gamma: real, x: seq<real>, uc: seq<real>, ut: seq<real>,
                        x': seq<real>, uc': seq<real>, ut': seq<real>)
    requires Sized(p, x, uc, ut) && Sized(p, x', uc', ut') && Books(p, u, x, uc, ut) && t in u
    requires OneScaled(p, t, gamma, x, uc, ut, x', uc', ut')
    ensures Books(p, u - {t}, x', uc', ut')
  {
    var v := u - {t};
    assert v + {t} == u && p.flows - u + {t} == p.flows - v;
    forall l | 0 <= l < |uc|
      ensures ut'[l] == Load(p.adj, p.weight, v, l)
      ensures uc'[l] == p.capacity[l] - Load(p.adj, x', p.flows - v, l)
    {
      LoadAdd(p.adj, p.weight, v, t, l, |p.adj|);
      LoadAdd(p.adj, x', p.flows - u, t, l, |p.adj|);
      LoadSame(p.adj, x, x', p.flows - u, p.flows - u, l, |p.adj|);
    }
    ScaledSign(x'[t], gamma);
  }

  lemma OneIsScaled(p: Problem, u: set<nat>, t: nat, gamma: real, x: seq<real>, uc: seq<real>, ut: seq<real>,
                    x': seq<real>, uc': seq<real>, ut': seq<real>)
    requires Sized(p, x, uc, ut) && Sized(p, x', uc', ut') && t in u && u <= p.flows && x[t] == p.weight[t]
    requires OneScaled(p, t, gamma, x, uc, ut, x', uc', ut')
    ensures Scaled(p, gamma, u, x, uc, ut, u - {t}, x', uc', ut')
  {
    forall l | 0 <= l < |uc| ensures (uc[l] - uc'[l]) * gamma == ut[l] - ut'[l] {
      CarriedScales(p.adj[t], l, x'[t], gamma, x[t]);
      Proportion(uc[l], uc'[l], ut[l], ut'[l], Carried(p.adj[t], l, x'[t]), Carried(p.adj[t], l, x[t]), gamma);
    }
  }

  lemma Proportion(a: real, a': real, b: real, b': real, c: real, d: real, g: real)
    requires a' == a - c && b' == b - d && c * g == d
    ensures (a - a') * g == b - b'
  {
  }

  lemma ScaledSign(x: real, gamma: real)
    requires gamma > 0.0
    ensures (x * gamma >= 0.0 ==> x >= 0.0) && (x * gamma > 0.0 ==> x > 0.0)
  {
    assert x == (x * gamma) / gamma;
  }

  lemma AddUp(a: real, a': real, a'': real, b: real, b': real, b'': real, g: real)
    requires (a - a') * g == b - b' && (a' - a'') * g == b' - b''
    ensures (a - a'') * g == b - b''
  {
  }

  ghost function Below(n: nat): (r: set<nat>)
    ensures |r| == n && forall l: nat :: l in r <==> l < n
  {
    if n == 0 then {} else Below(n - 1) + {n - 1}
  }

  lemma StartFilled(p: Problem, u: set<nat>, x: seq<real>, uc: seq<real>, ut: seq<real>, gamma: real)
    requires Sized(p, x, uc, ut) && u == p.flows && Level(uc, ut, gamma)
    requires forall l | 0 <= l < |uc| :: uc[l] >= 0.0 && (ut[l] > 0.0 ==> uc[l] > 0.0)
    ensures Filled(p, u, x, uc, ut, gamma)
  {
    forall l | 0 <= l < |uc| ensures ut[l] <= gamma * uc[l] {
      if uc[l] != 0.0 {
        DivAtMost(ut[l], uc[l], gamma);
      } else {
        assert gamma * uc[l] == 0.0;
      }
    }
  }

  // ----- the rounds -----

  /** One turn of the main loop: the bottleneck link, its level, and the flows scaled by it. */
  datatype Round = Round(link: nat, level: real, flows: set<nat>)

  /** Every flow but those of u is scaled in one round, and in no other. */
  ghost predicate Partition(flows: set<nat>, rounds: seq<Round>, u: set<nat>) {
    && u <= flows
    && (forall i | 0 <= i < |rounds| :: rounds[i].flows <= flows - u)
    && (forall i, j | 0 <= i < j < |rounds| :: rounds[i].flows !! rounds[j].flows)
    && (forall f | f in flows - u :: InSome(rounds, f))
  }

  ghost predicate InSome(rounds: seq<Round>, f: nat) {
    exists i :: 0 <= i < |rounds| && f in rounds[i].flows
  }

  /** The flows of a round have the rates that its level gives. */
  ghost predicate CutTo(p: Problem, round: Round, x: seq<real>)
    requires |x| == |p.weight|
  {
    round.level > 0.0 && forall f | f in round.flows :: f < |x| && x[f] * round.level == p.weight[f]
  }

  /** No flow is scaled in two rounds; those of a round got their rates from its level, those of none kept theirs. */
  ghost predicate History(p: Problem, rounds: seq<Round>, u: set<nat>, x: seq<real>) {
    && p.Valid() && |x| == |p.adj|
    && Partition(p.flows, rounds, u)
    && (forall i | 0 <= i < |rounds| :: CutTo(p, rounds[i], x))
    && (forall f | 0 <= f < |x| && f !in p.flows - u :: x[f] == p.weight[f])
  }

  lemma HistoryStarts(p: Problem, x: seq<real>)
    requires p.Valid() && x == p.weight
    ensures History(p, [], p.flows, x)
  {
  }

  lemma PartitionGrows(flows: set<nat>, rounds: seq<Round>, u: set<nat>, round: Round, u': set<nat>)
    requires Partition(flows, rounds, u) && u' <= u && round.flows == u - u'
    ensures Partition(flows, rounds + [round], u')
  {
    var more := rounds + [round];
    forall f | f in flows - u' ensures InSome(more, f) {
      if f in u {
        assert f in more[|rounds|].flows;
      } else {
        assert InSome(rounds, f);
        var i :| 0 <= i < |rounds| && f in rounds[i].flows;
        assert f in more[i].flows;
      }
    }
    forall i, j | 0 <= i < j < |more| ensures more[i].flows !! more[j].flows {
      assert rounds[i].flows <= flows - u;
    }
  }

  lemma CutStays(p: Problem, round: Round, x: seq<real>, x': seq<real>)
    requires |x| == |x'| == |p.weight| && CutTo(p, round, x)
    requires forall f | f in round.flows && f < |x| :: x'[f] == x[f]
    ensures CutTo(p, round, x')
  {
    forall f | f in round.flows ensures f < |x| && x'[f] * round.level == p.weight[f] {
      assert x[f] * round.level == p.weight[f];
    }
  }

  lemma HistoryGrows(p: Problem, rounds: seq<Round>, round: Round, u: set<nat>, x: seq<real>, u': set<nat>,
                     x': seq<real>)
    requires History(p, rounds, u, x) && |x'| == |x| && u' <= u && round.flows == u - u' && CutTo(p, round, x')
    requires forall f | 0 <= f < |x| && f !in u - u' :: x'[f] == x[f]
    ensures History(p, rounds + [round], u', x')
  {
    PartitionGrows(p.flows, rounds, u, round, u');
    var more := rounds + [round];
    forall i | 0 <= i < |more| ensures CutTo(p, more[i], x') {
      if i < |rounds| {
        assert rounds[i].flows <= p.flows - u;
        CutStays(p, rounds[i], x, x');
      }
    }
  }

  lemma RoundCuts(p: Problem, b: nat, gamma: real, u: set<nat>, x: seq<real>, uc: seq<real>, ut: seq<real>,
                  u': set<nat>, x': seq<real>, uc': seq<real>, ut': seq<real>)
    requires Sized(p, x, uc, ut) && Sized(p, x', uc', ut')
    requires Scaled(p, gamma, u, x, uc, ut, u', x', uc', ut')
    ensures u' <= u && CutTo(p, Round(b, gamma, u - u'), x')
    ensures forall f | 0 <= f < |x| && f !in u - u' :: x'[f] == x[f]
  {
  }

  /** The links of the rounds are different ones, and have no unscaled throughput left. */
  ghost predicate Spent(rounds: seq<Round>, ut: seq<real>) {
    && (forall i | 0 <= i < |rounds| :: rounds[i].link < |ut| && ut[rounds[i].link] == 0.0)
    && (forall i, j | 0 <= i < j < |rounds| :: rounds[i].link != rounds[j].link)
  }

  lemma RoundsFit(rounds: seq<Round>, ut: seq<real>)
    requires Spent(rounds, ut)
    ensures |rounds| <= |ut|
  {
    var links := seq(|rounds|, i requires 0 <= i < |rounds| => rounds[i].link);
    DistinctFit(links, Below(|ut|));
  }

  /** A link that has no unscaled throughput left never gets any again. */
  lemma StaysSpent(p: Problem, b: nat, gamma: real, u: set<nat>, x: seq<real>, uc: seq<real>, ut: seq<real>,
                   u': set<nat>, x': seq<real>, uc': seq<real>, ut': seq<real>, l: nat)
    requires Sized(p, x, uc, ut) && Sized(p, x', uc', ut')
    requires Books(p, u, x, uc, ut) && Books(p, u', x', uc', ut')
    requires Rounded(p, b, gamma, u, x, uc, ut, u', x', uc', ut')
    requires l < |ut| && ut[l] == 0.0
    ensures ut'[l] == 0.0
  {
    forall f | 0 <= f < |p.adj| && f in u' ensures l !in p.adj[f] || p.weight[f] == 0.0 {
      if l in p.adj[f] {
        LoadHolds(p.adj, p.weight, u, f, l, |p.adj|);
      }
    }
    LoadNone(p.adj, p.weight, u', l, |p.adj|);
  }

  lemma SpentGrows(p: Problem, rounds: seq<Round>, b: nat, gamma: real, u: set<nat>, x: seq<real>, uc: seq<real>,
                   ut: seq<real>, u': set<nat>, x': seq<real>, uc': seq<real>, ut': seq<real>)
    requires Sized(p, x, uc, ut) && Sized(p, x', uc', ut')
    requires Books(p, u, x, uc, ut) && Books(p, u', x', uc', ut')
    requires Rounded(p, b, gamma, u, x, uc, ut, u', x', uc', ut')
    requires Spent(rounds, ut) && ut[b] != 0.0
    ensures Spent(rounds + [Round(b, gamma, u - u')], ut')
  {
    forall i | 0 <= i < |rounds| ensures ut'[rounds[i].link] == 0.0 {
      StaysSpent(p, b, gamma, u, x, uc, ut, u', x', uc', ut', rounds[i].link);
    }
  }

  /** The levels never rise. */
  ghost predicate Falling(rounds: seq<Round>, gamma: real) {
    && (forall i, j | 0 <= i < j < |rounds| :: rounds[j].level <= rounds[i].level)
    && (rounds != [] ==> gamma <= rounds[|rounds| - 1].level)
  }

  lemma FallsOn(rounds: seq<Round>, round: Round, gamma: real)
    requires Falling(rounds, round.level) && gamma <= round.level
    ensures Falling(rounds + [round], gamma)
  {
    var more := rounds + [round];
    forall i, j | 0 <= i < j < |more| ensures more[j].level <= more[i].level {
      if j == |rounds| && i < |rounds| - 1 {
        assert rounds[|rounds| - 1].level <= rounds[i].level;
      }
    }
  }

  /** What newupdate makes of a problem: flows with a weight get a positive rate and the others none; the rates
      fit the links exactly on the problems whose links have room, and then they are weighted max-min fair. */
  ghost predicate Result(p: Problem, x: seq<real>) {
    && p.Valid() && |x| == |p.adj|
    && (forall f | f in p.flows :: if p.weight[f] > 0.0 then x[f] > 0.0 else x[f] == 0.0)
    && (p.Feasible(x) <==> p.Roomy())
    && (p.Roomy() ==> p.Bottlenecked(x) && p.MaxMinFair(x))
  }

  lemma Finish(p: Problem, u: set<nat>, x: seq<real>, uc: seq<real>, ut: seq<real>)
    requires Sized(p, x, uc, ut) && Books(p, u, x, uc, ut)
    requires p.Roomy() ==> Filled(p, u, x, uc, ut, 0.0)
    ensures Result(p, x) && (p.Roomy() ==> forall f | f in u :: p.weight[f] == 0.0)
  {
    if p.Roomy() {
      FilledUp(p, u, x, uc, ut);
      p.BottleneckedIsFair(x);
    }
    if p.Feasible(x) {
      forall l | 0 <= l < |p.capacity|
        ensures p.capacity[l] >= 0.0 && (Load(p.adj, p.weight, p.flows, l) > 0.0 ==> p.capacity[l] > 0.0)
      {
        FeasibleNeedsRoom(p, x, l);
      }
    }
  }

  lemma StartBooks(p: Problem, x: seq<real>, uc: seq<real>, ut: seq<real>)
    requires Sized(p, x, uc, ut) && x == p.weight && uc == p.capacity
    requires forall l | 0 <= l < |uc| :: ut[l] == Load(p.adj, p.weight, p.flows, l)
    ensures Books(p, p.flows, x, uc, ut)
  {
    forall l | 0 <= l < |uc| ensures Load(p.adj, x, p.flows - p.flows, l) == 0.0 {
      LoadNone(p.adj, x, p.flows - p.flows, l, |p.adj|);
    }
  }

  class Allocator {
    const adj: seq<seq<nat>>
    const isShort: seq<bool>
    const mu: seq<real>
    const theflows: seq<seq<nat>>
    const tput: array<real>
    const scaled: array<bool>
    const uc: array<real>
    const utput: array<real>

    ghost predicate Valid() {
      && |isShort| == |adj| == tput.Length == scaled.Length
      && |theflows| == |mu| == uc.Length == utput.Length
      && tput != uc && uc != utput && tput != utput
      && (forall f | 0 <= f < |adj| :: adj[f] != [] && forall l | l in adj[f] :: l < |mu|)
      && (forall l | 0 <= l < |mu| :: theflows[l] == Through(adj, l, |adj|))
    }

    /** The flows through link l, as collected at the end of GetInputs. */
    static method Incident(routes: seq<seq<nat>>, l: nat) returns (ts: seq<nat>)
      ensures ts == Through(routes, l, |routes|)
    {
      ts := [];
      for j := 0 to |routes|
        invariant ts == Through(routes, l, j)
      {
        for k := 0 to |routes[j]|
          invariant ts == Through(routes, l, j) + seq(Count(routes[j][..k], l), _ => j)
        {
          CountPrefix(routes[j], k, l);
          if routes[j][k] == l {
            ts := ts + [j];
          }
        }
        assert routes[j][..|routes[j]|] == routes[j];
      }
    }

    /** The inputs; the incidence of flows and links is built as at the end of GetInputs. */
    constructor (routes: seq<seq<nat>>, short: seq<bool>, service: seq<real>, rates: seq<real>)
      requires |short| == |routes| == |rates|
      requires forall f | 0 <= f < |routes| :: routes[f] != [] && forall l | l in routes[f] :: l < |service|
      ensures Valid() && adj == routes && isShort == short && mu == service && tput[..] == rates
    {
      var incidence: seq<seq<nat>> := [];
      for l := 0 to |service|
        invariant |incidence| == l
        invariant forall i | 0 <= i < l :: incidence[i] == Through(routes, i, |routes|)
      {
        var ts := Incident(routes, l);
        incidence := incidence + [ts];
      }
      adj, isShort, mu, theflows := routes, short, service, incidence;
      tput := new real[|rates|](i requires 0 <= i < |rates| => rates[i]);
      scaled := new bool[|rates|];
      uc := new real[|service|];
      utput := new real[|service|];
    }

    // ----- what the flows and links amount to -----

    ghost function Long(): set<nat>
      requires |isShort| == |adj|
    {
      set f: nat | f < |adj| && !isShort[f]
    }

    ghost function Short(): set<nat>
      requires |isShort| == |adj|
    {
      set f: nat | f < |adj| && isShort[f]
    }

    /** What the short flows leave of a link. */
    ghost function CapacityOf(w: seq<real>, l: nat): real
      requires |isShort| == |adj| == |w| && l < |mu|
    {
      mu[l] * 1.05 - Load(adj, w, Short(), l)
    }

    ghost function Instance(w: seq<real>): Problem
      requires |isShort| == |adj| == |w|
    {
      Problem(adj, Long(), w, seq(|mu|, l requires 0 <= l < |mu| => CapacityOf(w, l)))
    }

    // ----- what the allocation is for -----

    /** All flows together, short ones included, put at most 1.05 times its service rate on every link. */
    ghost predicate Fits(x: seq<real>)
      requires |x| == |adj|
    {
      forall l | 0 <= l < |mu| :: Load(adj, x, Below(|adj|), l) <= mu[l] * 1.05
    }

    ghost predicate LongOn(w: seq<real>, l: nat)
      requires |w| == |isShort| == |adj|
    {
      exists f :: 0 <= f < |adj| && !isShort[f] && w[f] > 0.0 && l in adj[f]
    }

    /** The short flows alone fit, and leave something wherever a long flow with a rate passes. */
    ghost predicate LeavesRoom(w: seq<real>)
      requires |w| == |isShort| == |adj|
    {
      forall l | 0 <= l < |mu| :: Roomy(w, l)
    }

    ghost predicate Roomy(w: seq<real>, l: nat)
      requires |w| == |isShort| == |adj| && l < |mu|
    {
      var short := Load(adj, w, Short(), l);
      short <= mu[l] * 1.05 && (LongOn(w, l) ==> short < mu[l] * 1.05)
    }

    /** Link l is on the route of f and loaded to the full, and no long flow on it did better by its old rate than f. */
    ghost predicate HeldBack(w: seq<real>, x: seq<real>, f: nat, l: nat)
      requires |w| == |x| == |isShort| == |adj| && f < |adj|
    {
      && l in adj[f] && l < |mu| && Load(adj, x, Below(|adj|), l) == mu[l] * 1.05
      && forall g | 0 <= g < |adj| && !isShort[g] && l in adj[g] :: x[g] * w[f] <= x[f] * w[g]
    }

    /** What newupdate makes of the old rates w. */
    ghost predicate Allocates(w: seq<real>, x: seq<real>)
      requires |w| == |x| == |isShort| == |adj|
    {
      && (Fits(x) <==> LeavesRoom(w))
      && (LeavesRoom(w) ==>
            forall f | 0 <= f < |adj| && !isShort[f] && w[f] > 0.0 :: x[f] > 0.0 && exists l :: HeldBack(w, x, f, l))
      && (forall f | 0 <= f < |adj| && !isShort[f] && w[f] == 0.0 :: x[f] == 0.0)
      && (forall f | 0 <= f < |adj| && isShort[f] :: x[f] == w[f])
    }

    lemma WholeLoad(w: seq<real>, x: seq<real>, l: nat)
      requires |w| == |x| == |isShort| == |adj| && forall f | 0 <= f < |adj| && isShort[f] :: x[f] == w[f]
      ensures Load(adj, x, Below(|adj|), l) == Load(adj, w, Short(), l) + Load(adj, x, Long(), l)
    {
      assert Below(|adj|) == Short() + Long();
      LoadUnion(adj, x, Short(), Long(), l, |adj|);
      LoadSame(adj, x, w, Short(), Short(), l, |adj|);
    }

    lemma LongLoad(w: seq<real>, l: nat)
      requires |w| == |isShort| == |adj| && NonNegative(w)
      ensures Load(adj, w, Long(), l) > 0.0 <==> LongOn(w, l)
    {
      LoadNonNegative(adj, w, Long(), l, |adj|);
      if Load(adj, w, Long(), l) > 0.0 {
        var f := LoadHasFlow(adj, w, Long(), l, |adj|);
      }
      if f :| 0 <= f < |adj| && !isShort[f] && w[f] > 0.0 && l in adj[f] {
        LoadHolds(adj, w, Long(), f, l, |adj|);
      }
    }

    lemma RoomIff(w: seq<real>)
      requires |w| == |isShort| == |adj| && NonNegative(w)
      ensures Instance(w).Roomy() <==> LeavesRoom(w)
    {
      var p := Instance(w);
      forall l | 0 <= l < |mu|
        ensures (p.capacity[l] >= 0.0 && (Load(p.adj, p.weight, p.flows, l) > 0.0 ==> p.capacity[l] > 0.0))
                <==> Roomy(w, l)
      {
        LongLoad(w, l);
      }
    }

    lemma FitsIff(w: seq<real>, x: seq<real>)
      requires |w| == |x| == |isShort| == |adj| && forall f | 0 <= f < |adj| && isShort[f] :: x[f] == w[f]
      ensures Instance(w).Feasible(x) <==> Fits(x)
    {
      var p := Instance(w);
      forall l | 0 <= l < |mu|
        ensures Load(p.adj, x, p.flows, l) <= p.capacity[l] <==> Load(adj, x, Below(|adj|), l) <= mu[l] * 1.05
      {
        WholeLoad(w, x, l);
      }
    }

    lemma BottleneckHolds(w: seq<real>, x: seq<real>, f: nat, l: nat)
      requires |w| == |x| == |isShort| == |adj| && forall f | 0 <= f < |adj| && isShort[f] :: x[f] == w[f]
      requires f < |adj| && Instance(w).Bottleneck(x, f, l)
      ensures HeldBack(w, x, f, l)
    {
      WholeLoad(w, x, l);
      forall g | 0 <= g < |adj| && !isShort[g] && l in adj[g] ensures x[g] * w[f] <= x[f] * w[g] {
        assert Instance(w).AtMost(x, g, f);
      }
    }

    lemma ResultAllocates(w: seq<real>, x: seq<real>)
      requires |w| == |x| == |isShort| == |adj| && forall f | 0 <= f < |adj| && isShort[f] :: x[f] == w[f]
      requires Result(Instance(w), x)
      ensures Allocates(w, x)
    {
      RoomIff(w);
      FitsIff(w, x);
      if LeavesRoom(w) {
        forall f | 0 <= f < |adj| && !isShort[f] && w[f] > 0.0 ensures exists l :: HeldBack(w, x, f, l) {
          var l :| Instance(w).Bottleneck(x, f, l);
          BottleneckHolds(w, x, f, l);
        }
      }
    }

    // ----- the pieces of newupdate -----

    /** Charges flow i to its links, as capacity used if it is short and as unscaled throughput if it is long. */
    method Charge(i: nat)
      requires Valid() && i < |adj|
      modifies uc, utput
      ensures forall l | 0 <= l < |mu| :: uc[l] == old(uc[l]) - if isShort[i] then Carried(adj[i], l, tput[i]) else 0.0
      ensures forall l | 0 <= l < |mu| ::
              utput[l] == old(utput[l]) + if isShort[i] then 0.0 else Carried(adj[i], l, tput[i])
    {
      var x := tput[i];
      for j := 0 to |adj[i]|
        invariant forall l | 0 <= l < |mu| ::
                  uc[l] == old(uc[l]) - if isShort[i] then Carried(adj[i][..j], l, x) else 0.0
        invariant forall l | 0 <= l < |mu| ::
                  utput[l] == old(utput[l]) + if isShort[i] then 0.0 else Carried(adj[i][..j], l, x)
      {
        CarriedPrefix(adj[i], j, x);
        assert adj[i][j] in adj[i];
        if isShort[i] {
          uc[adj[i][j]] := uc[adj[i][j]] - x;
        } else {
          utput[adj[i][j]] := utput[adj[i][j]] + x;
        }
      }
      assert adj[i][..|adj[i]|] == adj[i];
    }

    method Init()
      requires Valid()
      modifies scaled, uc, utput
      ensures forall f | 0 <= f < |adj| :: scaled[f] == isShort[f]
      ensures forall l | 0 <= l < |mu| :: uc[l] == CapacityOf(tput[..], l) && utput[l] == Load(adj, tput[..], Long(), l)
    {
      for l := 0 to |mu|
        invariant forall k | 0 <= k < l :: uc[k] == mu[k] * 1.05 && utput[k] == 0.0
      {
        uc[l] := mu[l] * 1.05;
        utput[l] := 0.0;
      }
      for i := 0 to |adj|
        invariant forall f | 0 <= f < i :: scaled[f] == isShort[f]
        invariant forall l | 0 <= l < |mu| :: uc[l] == mu[l] * 1.05 - LoadUpTo(adj, tput[..], Short(), l, i)
        invariant forall l | 0 <= l < |mu| :: utput[l] == LoadUpTo(adj, tput[..], Long(), l, i)
      {
        scaled[i] := isShort[i];
        Charge(i);
      }
    }

    ghost predicate Chosen(bneck: int, maxgamma: real)
      requires Valid()
      reads uc, utput
    {
      && -1 <= bneck < |mu|
      && (if bneck == -1 then maxgamma == 0.0
          else uc[bneck] != 0.0 && maxgamma > 0.0 && maxgamma == utput[bneck] / uc[bneck]
               && utput[bneck] == maxgamma * uc[bneck])
      && Level(uc[..], utput[..], maxgamma)
    }

    /** The link with the largest positive ratio of unscaled throughput to unscaled capacity, or -1. */
    method FindBottleneck() returns (bneck: int, maxgamma: real)
      requires Valid()
      ensures Chosen(bneck, maxgamma)
    {
      bneck := -1;
      maxgamma := 0.0;
      for i := 0 to |mu|
        invariant -1 <= bneck < |mu| && maxgamma >= 0.0
        invariant bneck == -1 ==> maxgamma == 0.0
        invariant bneck >= 0 ==> uc[bneck] != 0.0 && maxgamma == utput[bneck] / uc[bneck] > 0.0
        invariant forall l | 0 <= l < i && uc[l] != 0.0 :: utput[l] / uc[l] <= maxgamma
      {
        if uc[i] != 0.0 {
          var t := utput[i] / uc[i];
          if t > maxgamma {
            bneck := i;
            maxgamma := t;
          }
        }
      }
    }

    /** Takes flow t off its links. */
    method Release(t: nat, rate: real, unscaled: real)
      requires Valid() && t < |adj|
      modifies uc, utput
      ensures forall l | 0 <= l < |mu| :: uc[l] == old(uc[l]) - Carried(adj[t], l, rate)
      ensures forall l | 0 <= l < |mu| :: utput[l] == old(utput[l]) - Carried(adj[t], l, unscaled)
    {
      for j := 0 to |adj[t]|
        invariant forall l | 0 <= l < |mu| :: uc[l] == old(uc[l]) - Carried(adj[t][..j], l, rate)
        invariant forall l | 0 <= l < |mu| :: utput[l] == old(utput[l]) - Carried(adj[t][..j], l, unscaled)
      {
        CarriedPrefix(adj[t], j, rate);
        CarriedPrefix(adj[t], j, unscaled);
        assert adj[t][j] in adj[t];
        uc[adj[t][j]] := uc[adj[t][j]] - rate;
        utput[adj[t][j]] := utput[adj[t][j]] - unscaled;
      }
      assert adj[t][..|adj[t]|] == adj[t];
    }

    method ScaleFlow(t: nat, gamma: real)
      requires Valid() && t < |adj| && gamma > 0.0
      modifies tput, scaled, uc, utput
      ensures tput[t] * gamma == old(tput[t]) && scaled[t]
      ensures forall f | 0 <= f < |adj| && f != t :: tput[f] == old(tput[f]) && scaled[f] == old(scaled[f])
      ensures forall l | 0 <= l < |mu| :: uc[l] == old(uc[l]) - Carried(adj[t], l, tput[t])
      ensures forall l | 0 <= l < |mu| :: utput[l] == old(utput[l]) - Carried(adj[t], l, old(tput[t]))
    {
      tput[t] := tput[t] / gamma;
      scaled[t] := true;
      assert tput[t] * gamma == old(tput[t]);
      Release(t, tput[t], tput[t] * gamma);
    }

    ghost predicate Marked(u: set<nat>)
      requires |adj| == scaled.Length
      reads scaled
    {
      forall f | 0 <= f < |adj| :: scaled[f] <==> f !in u
    }

    /** The array contents are as the problem's books for the unscaled flows u say. */
    ghost predicate InBooks(p: Problem, u: set<nat>)
      requires Valid()
      reads tput, scaled, uc, utput
    {
      && p.adj == adj && p.flows == Long() && Sized(p, tput[..], uc[..], utput[..])
      && Books(p, u, tput[..], uc[..], utput[..]) && Marked(u)
    }

    /** Scales one unscaled flow of the problem and keeps the books. */
    method ScaleOne(t: nat, gamma: real, ghost p: Problem, ghost u: set<nat>)
      requires Valid() && gamma > 0.0 && InBooks(p, u) && t in u
      modifies tput, scaled, uc, utput
      ensures InBooks(p, u - {t})
      ensures Scaled(p, gamma, u, old(tput[..]), old(uc[..]), old(utput[..]), u - {t}, tput[..], uc[..], utput[..])
    {
      ghost var x, c, y := tput[..], uc[..], utput[..];
      ScaleFlow(t, gamma);
      ScaleKeepsBooks(p, u, t, gamma, x, c, y, tput[..], uc[..], utput[..]);
      OneIsScaled(p, u, t, gamma, x, c, y, tput[..], uc[..], utput[..]);
    }

    method ScaleNext(t: nat, gamma: real, ghost p: Problem,
                     ghost u0: set<nat>, ghost x: seq<real>, ghost c: seq<real>, ghost y: seq<real>, ghost u: set<nat>)
      returns (ghost u': set<nat>)
      requires Valid() && gamma > 0.0 && InBooks(p, u) && t in u
      requires Sized(p, x, c, y) && Scaled(p, gamma, u0, x, c, y, u, tput[..], uc[..], utput[..])
      modifies tput, scaled, uc, utput
      ensures u' == u - {t} && InBooks(p, u')
      ensures Scaled(p, gamma, u0, x, c, y, u', tput[..], uc[..], utput[..])
    {
      ghost var x1, c1, y1 := tput[..], uc[..], utput[..];
      ScaleOne(t, gamma, p, u);
      u' := u - {t};
      ScaledThen(p, gamma, u0, x, c, y, u, x1, c1, y1, u', tput[..], uc[..], utput[..]);
    }

    /** The flows of u that are not in the list. */
    ghost function Except(u: set<nat>, ts: seq<nat>): set<nat> {
      set f | f in u && f !in ts
    }

    lemma ExceptNext(u: set<nat>, ts: seq<nat>, i: nat)
      requires i < |ts|
      ensures Except(u, ts[..i + 1]) == Except(u, ts[..i]) - {ts[i]}
    {
      assert ts[..i + 1] == ts[..i] + [ts[i]];
    }

    /** One flow of the bottleneck link: it is scaled if it is a long one and has not been before. */
    method ScaleAny(t: nat, gamma: real, ghost p: Problem,
                    ghost u0: set<nat>, ghost x: seq<real>, ghost c: seq<real>, ghost y: seq<real>, ghost u: set<nat>)
      requires Valid() && gamma > 0.0 && InBooks(p, u) && t < |adj|
      requires Sized(p, x, c, y) && Scaled(p, gamma, u0, x, c, y, u, tput[..], uc[..], utput[..])
      modifies tput, scaled, uc, utput
      ensures InBooks(p, u - {t})
      ensures Scaled(p, gamma, u0, x, c, y, u - {t}, tput[..], uc[..], utput[..])
    {
      if !isShort[t] && !scaled[t] {
        ghost var u' := ScaleNext(t, gamma, p, u0, x, c, y, u);
      } else {
        assert u - {t} == u;
      }
    }

    /** The inner loop: all flows on the bottleneck link. */
    method ScaleAll(bneck: nat, gamma: real, ghost p: Problem, ghost u: set<nat>)
      requires Valid() && gamma > 0.0 && bneck < |mu| && InBooks(p, u)
      modifies tput, scaled, uc, utput
      ensures InBooks(p, Except(u, theflows[bneck]))
      ensures Scaled(p, gamma, u, old(tput[..]), old(uc[..]), old(utput[..]),
                     Except(u, theflows[bneck]), tput[..], uc[..], utput[..])
    {
      ghost var x, c, y := tput[..], uc[..], utput[..];
      ghost var u' := u;
      assert Except(u, theflows[bneck][..0]) == u;
      for i := 0 to |theflows[bneck]|
        invariant u' == Except(u, theflows[bneck][..i]) && InBooks(p, u')
        invariant Scaled(p, gamma, u, x, c, y, u', tput[..], uc[..], utput[..])
      {
        var t := theflows[bneck][i];
        assert t in theflows[bneck];
        ExceptNext(u, theflows[bneck], i);
        ScaleAny(t, gamma, p, u, x, c, y, u');
        u' := u' - {t};
      }
      assert theflows[bneck][..|theflows[bneck]|] == theflows[bneck];
    }

    /** One turn of the main loop: scales all unscaled long flows on the bottleneck link. */
    method ScaleLink(bneck: nat, gamma: real, ghost p: Problem, ghost u: set<nat>) returns (ghost u': set<nat>)
      requires Valid() && gamma > 0.0 && bneck < |mu| && utput[bneck] == gamma * uc[bneck] && InBooks(p, u)
      modifies tput, scaled, uc, utput
      ensures InBooks(p, u')
      ensures Rounded(p, bneck, gamma, u, old(tput[..]), old(uc[..]), old(utput[..]), u', tput[..], uc[..], utput[..])
    {
      ghost var x, c, y := tput[..], uc[..], utput[..];
      ScaleAll(bneck, gamma, p, u);
      u' := Except(u, theflows[bneck]);
      assert u' == set f | f in u && bneck !in p.adj[f];
      LinkDone(p, bneck, gamma, u, x, c, y, u', tput[..], uc[..], utput[..]);
      ghost var before := uc[..];
      uc[bneck] := 0.0;
      assert uc[..] == before;
    }

    /** Between two turns: the books, the rounds so far, and on inputs with room the filling level. */
    ghost predicate Filling(p: Problem, u: set<nat>, rounds: seq<Round>, bneck: int, gamma: real)
      requires Valid()
      reads tput, scaled, uc, utput
    {
      && Chosen(bneck, gamma) && InBooks(p, u)
      && History(p, rounds, u, tput[..]) && Spent(rounds, utput[..])
      && (p.Roomy() ==> Filled(p, u, tput[..], uc[..], utput[..], gamma) && Falling(rounds, gamma))
    }

    /** Scales the bottleneck's flows. */
    method TurnLink(bneck: nat, gamma: real, ghost p: Problem, ghost u: set<nat>, ghost rounds: seq<Round>)
      returns (ghost u': set<nat>)
      requires Valid() && Filling(p, u, rounds, bneck, gamma)
      modifies tput, scaled, uc, utput
      ensures u' == (set f | f in u && bneck !in adj[f]) && InBooks(p, u')
      ensures History(p, rounds + [Round(bneck, gamma, u - u')], u', tput[..])
      ensures Spent(rounds + [Round(bneck, gamma, u - u')], utput[..])
      ensures p.Roomy() ==> Filled(p, u', tput[..], uc[..], utput[..], gamma)
    {
      ghost var x, c, y := tput[..], uc[..], utput[..];
      u' := ScaleLink(bneck, gamma, p, u);
      RoundCuts(p, bneck, gamma, u, x, c, y, u', tput[..], uc[..], utput[..]);
      HistoryGrows(p, rounds, Round(bneck, gamma, u - u'), u, x, u', tput[..]);
      SpentGrows(p, rounds, bneck, gamma, u, x, c, y, u', tput[..], uc[..], utput[..]);
      if p.Roomy() {
        RoundKeepsFilled(p, bneck, gamma, u, x, c, y, u', tput[..], uc[..], utput[..]);
      }
    }

    /** Scales the bottleneck's flows and looks for the next bottleneck, whose level is no higher if there is room. */
    method Turn(bneck: nat, gamma: real, ghost p: Problem, ghost u: set<nat>, ghost rounds: seq<Round>)
      returns (bneck': int, gamma': real, ghost u': set<nat>)
      requires Valid() && Filling(p, u, rounds, bneck, gamma)
      modifies tput, scaled, uc, utput
      ensures u' == (set f | f in u && bneck !in adj[f])
      ensures Filling(p, u', rounds + [Round(bneck, gamma, u - u')], bneck', gamma')
      ensures p.Roomy() ==> gamma' <= gamma
    {
      u' := TurnLink(bneck, gamma, p, u, rounds);
      bneck', gamma' := FindBottleneck();
      if p.Roomy() {
        LowerLevel(p, u', tput[..], uc[..], utput[..], gamma, gamma');
        FallsOn(rounds, Round(bneck, gamma, u - u'), gamma');
      }
    }

    /** What newupdate does before its main loop. */
    method Begin() returns (bneck: int, gamma: real)
      requires Valid() && NonNegative(tput[..])
      modifies scaled, uc, utput
      ensures Filling(Instance(tput[..]), Long(), [], bneck, gamma)
    {
      ghost var w := tput[..];
      ghost var p := Instance(w);
      Init();
      StartBooks(p, w, uc[..], utput[..]);
      HistoryStarts(p, w);
      bneck, gamma := FindBottleneck();
      if p.Roomy() {
        StartFilled(p, Long(), w, uc[..], utput[..], gamma);
      }
    }

    /** All flows together fit the links exactly if the short ones leave room; then each long flow is held back by a
        link on its route that is full, and the rates are weighted max-min fair, with the old rates as weights. There
        are at most as many rounds as links; no flow is scaled twice, and on inputs with room every long flow with a
        weight is scaled once and levels never rise. */
    method NewUpdate() returns (ghost rounds: seq<Round>, ghost unscaled: set<nat>)
      requires Valid() && NonNegative(tput[..])
      modifies tput, scaled, uc, utput
      ensures Allocates(old(tput[..]), tput[..]) && Result(Instance(old(tput[..])), tput[..])
      ensures |rounds| <= |mu| && History(Instance(old(tput[..])), rounds, unscaled, tput[..])
      ensures var p := Instance(old(tput[..]));
              p.Roomy() ==> Falling(rounds, 0.0) && forall f | f in unscaled :: p.weight[f] == 0.0
    {
      ghost var w := tput[..];
      ghost var p := Instance(w);
      var bneck, maxgamma := Begin();
      rounds, unscaled := FillUp(bneck, maxgamma, p);
      RoundsFit(rounds, utput[..]);
      Finish(p, unscaled, tput[..], uc[..], utput[..]);
      ResultAllocates(w, tput[..]);
    }

    /** The main loop of newupdate. */
    method FillUp(bneck0: int, gamma0: real, ghost p: Problem)
      returns (ghost rounds: seq<Round>, ghost unscaled: set<nat>)
      requires Valid() && Filling(p, Long(), [], bneck0, gamma0)
      modifies tput, scaled, uc, utput
      ensures Filling(p, unscaled, rounds, -1, 0.0)
    {
      var bneck, maxgamma := bneck0, gamma0;
      rounds, unscaled := [], Long();
      while bneck + 1 != 0
        invariant Filling(p, unscaled, rounds, bneck, maxgamma)
        decreases |mu| - |rounds|
      {
        ghost var b: nat, g, u := bneck, maxgamma, unscaled;
        bneck, maxgamma, unscaled := Turn(bneck, maxgamma, p, u, rounds);
        rounds := rounds + [Round(b, g, u - unscaled)];
        RoundsFit(rounds, utput[..]);
      }
    }
  }
}
