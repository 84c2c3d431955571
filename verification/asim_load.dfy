// Loads that flows put on links, and weighted max-min fairness of a rate allocation.
module AsimLoad {

  /** What a flow of rate x puts on link l, summed up crossing by crossing. */
  function Carried(route: seq<nat>, l: nat, x: real): real {
    if route == [] then 0.0
    else Carried(route[..|route| - 1], l, x) + if route[|route| - 1] == l then x else 0.0
  }

  lemma {:induction false} CarriedNone(route: seq<nat>, l: nat, x: real)
    requires l !in route || x == 0.0
    ensures Carried(route, l, x) == 0.0
  {
    if route != [] {
      CarriedNone(route[..|route| - 1], l, x);
    }
  }

  lemma {:induction false} CarriedGrows(route: seq<nat>, l: nat, x: real, y: real)
    requires x <= y
    ensures Carried(route, l, x) <= Carried(route, l, y)
    ensures l in route && x < y ==> Carried(route, l, x) < Carried(route, l, y)
    ensures 0.0 <= x && l in route ==> x <= Carried(route, l, x)
    ensures 0.0 <= x ==> 0.0 <= Carried(route, l, x)
  {
    if route != [] {
      var rest, last := route[..|route| - 1], route[|route| - 1];
      assert route == rest + [last];
      CarriedGrows(rest, l, x, y);
      if l !in rest {
        CarriedNone(rest, l, x);
      }
    }
  }

  lemma {:induction false} CarriedScales(route: seq<nat>, l: nat, x: real, g: real, y: real)
    requires x * g == y
    ensures Carried(route, l, x) * g == Carried(route, l, y)
  {
    if route != [] {
      CarriedScales(route[..|route| - 1], l, x, g, y);
    }
  }

  /** The load on link l of the flows below n that are in `flows`. */
  function LoadUpTo(adj: seq<seq<nat>>, rate: seq<real>, flows: set<nat>, l: nat, n: nat): real
    requires n <= |adj| == |rate|
  {
    if n == 0 then 0.0
    else LoadUpTo(adj, rate, flows, l, n - 1)
         + if n - 1 in flows then Carried(adj[n - 1], l, rate[n - 1]) else 0.0
  }

  function Load(adj: seq<seq<nat>>, rate: seq<real>, flows: set<nat>, l: nat): real
    requires |adj| == |rate|
  {
    LoadUpTo(adj, rate, flows, l, |adj|)
  }

  ghost predicate NonNegative(rate: seq<real>) {
    forall f | 0 <= f < |rate| :: rate[f] >= 0.0
  }

  lemma {:induction false} LoadNonNegative(adj: seq<seq<nat>>, rate: seq<real>, flows: set<nat>, l: nat, n: nat)
    requires n <= |adj| == |rate| && forall h | 0 <= h < |rate| && h in flows :: rate[h] >= 0.0
    ensures LoadUpTo(adj, rate, flows, l, n) >= 0.0
  {
    if n > 0 {
      LoadNonNegative(adj, rate, flows, l, n - 1);
      if n - 1 in flows {
        CarriedGrows(adj[n - 1], l, 0.0, rate[n - 1]);
      }
      CarriedNone(adj[n - 1], l, 0.0);
    }
  }

  function Share(rate: seq<real>, flows: set<nat>, f: nat): real
    requires f < |rate|
  {
    if f in flows then rate[f] else 0.0
  }

  lemma {:induction false} LoadSame(adj: seq<seq<nat>>, rate: seq<real>, rate': seq<real>, flows: set<nat>,
                                     flows': set<nat>, l: nat, n: nat)
    requires n <= |adj| == |rate| == |rate'|
    requires forall f | 0 <= f < n :: Share(rate, flows, f) == Share(rate', flows', f)
    ensures LoadUpTo(adj, rate, flows, l, n) == LoadUpTo(adj, rate', flows', l, n)
  {
    if n > 0 {
      LoadSame(adj, rate, rate', flows, flows', l, n - 1);
      assert Share(rate, flows, n - 1) == Share(rate', flows', n - 1);
      CarriedNone(adj[n - 1], l, 0.0);
    }
  }

  /** Moving one flow into the set adds its share. */
  lemma {:induction false} LoadAdd(adj: seq<seq<nat>>, rate: seq<real>, flows: set<nat>, t: nat, l: nat, n: nat)
    requires n <= |adj| == |rate| && t < |adj| && t !in flows
    ensures LoadUpTo(adj, rate, flows + {t}, l, n)
         == LoadUpTo(adj, rate, flows, l, n) + if t < n then Carried(adj[t], l, rate[t]) else 0.0
  {
    if n > 0 {
      LoadAdd(adj, rate, flows, t, l, n - 1);
    }
  }

  /** No flow of the set on the link: no load. */
  lemma {:induction false} LoadNone(adj: seq<seq<nat>>, rate: seq<real>, flows: set<nat>, l: nat, n: nat)
    requires n <= |adj| == |rate|
    requires forall f | 0 <= f < n && f in flows :: l !in adj[f] || rate[f] == 0.0
    ensures LoadUpTo(adj, rate, flows, l, n) == 0.0
  {
    if n > 0 {
      LoadNone(adj, rate, flows, l, n - 1);
      if n - 1 in flows {
        CarriedNone(adj[n - 1], l, rate[n - 1]);
      }
    }
  }

  /** A load that is not zero comes from some flow. */
  lemma {:induction false} LoadHasFlow(adj: seq<seq<nat>>, rate: seq<real>, flows: set<nat>, l: nat, n: nat)
    returns (f: nat)
    requires n <= |adj| == |rate| && LoadUpTo(adj, rate, flows, l, n) != 0.0
    ensures f < n && f in flows && l in adj[f] && rate[f] != 0.0
  {
    f := n - 1;
    if f !in flows || l !in adj[f] || rate[f] == 0.0 {
      if f in flows {
        CarriedNone(adj[f], l, rate[f]);
      }
      f := LoadHasFlow(adj, rate, flows, l, n - 1);
    }
  }

  /** A flow on a link is part of its load. */
  lemma {:induction false} LoadHolds(adj: seq<seq<nat>>, rate: seq<real>, flows: set<nat>, f: nat, l: nat, n: nat)
    requires f < n <= |adj| == |rate| && f in flows && l in adj[f]
    requires forall h | 0 <= h < |rate| && h in flows :: rate[h] >= 0.0
    ensures LoadUpTo(adj, rate, flows, l, n) >= rate[f]
  {
    LoadNonNegative(adj, rate, flows, l, n - 1);
    CarriedGrows(adj[n - 1], l, rate[n - 1], rate[n - 1]);
    if f < n - 1 {
      LoadHolds(adj, rate, flows, f, l, n - 1);
    }
  }

  /** The loads of two sets of flows add up. */
  lemma {:induction false} LoadUnion(adj: seq<seq<nat>>, rate: seq<real>, a: set<nat>, b: set<nat>, l: nat, n: nat)
    requires n <= |adj| == |rate| && a * b == {}
    ensures LoadUpTo(adj, rate, a + b, l, n) == LoadUpTo(adj, rate, a, l, n) + LoadUpTo(adj, rate, b, l, n)
  {
    if n > 0 {
      LoadUnion(adj, rate, a, b, l, n - 1);
      assert n - 1 in a && n - 1 in b ==> n - 1 in a * b;
    }
  }

  // ----- allocations -----

  /** The routes of the flows, which flows take part, their weights, and the capacities of the links. */
  datatype Problem = Problem(adj: seq<seq<nat>>, flows: set<nat>, weight: seq<real>, capacity: seq<real>) {
    ghost predicate Valid() {
      && |weight| == |adj|
      && (forall f | f in flows :: f < |adj|)
      && (forall f | 0 <= f < |adj| :: adj[f] != [] && forall l | l in adj[f] :: l < |capacity|)
      && NonNegative(weight)
    }

    /** No link is overdrawn to begin with, and the links of flows with a weight have something left. */
    ghost predicate Roomy()
      requires |weight| == |adj|
    {
      forall l | 0 <= l < |capacity| ::
        capacity[l] >= 0.0 && (Load(adj, weight, flows, l) > 0.0 ==> capacity[l] > 0.0)
    }

    ghost predicate Allocation(x: seq<real>) {
      |x| == |adj| && NonNegative(x)
    }

    ghost predicate Feasible(x: seq<real>)
      requires |x| == |adj|
    {
      forall l | 0 <= l < |capacity| :: Load(adj, x, flows, l) <= capacity[l]
    }

    /** The factor of g (its rate against its weight) is at most that of f. */
    ghost predicate AtMost(x: seq<real>, g: nat, f: nat)
      requires |x| == |adj| == |weight| && f < |adj| && g < |adj|
    {
      x[g] * weight[f] <= x[f] * weight[g]
    }

    /** Link l is full and no flow on it has a larger factor than f. */
    ghost predicate Bottleneck(x: seq<real>, f: nat, l: nat)
      requires |x| == |adj| == |weight| && f < |adj|
    {
      && l in adj[f] && l < |capacity|
      && Load(adj, x, flows, l) == capacity[l]
      && forall g | 0 <= g < |adj| && g in flows && l in adj[g] :: AtMost(x, g, f)
    }

    ghost predicate Bottlenecked(x: seq<real>)
      requires |x| == |adj| == |weight|
    {
      forall f | 0 <= f < |adj| && f in flows && weight[f] > 0.0 :: exists l :: Bottleneck(x, f, l)
    }

    /** Weighted max-min fairness: whoever would get more in another feasible allocation takes it
        from a flow that has no larger factor. */
    ghost predicate MaxMinFair(x: seq<real>)
      requires |x| == |adj| == |weight|
    {
      && Feasible(x)
      && forall y, f | Allocation(y) && Feasible(y) && 0 <= f < |adj| && f in flows && weight[f] > 0.0 && y[f] > x[f] ::
           exists g :: 0 <= g < |adj| && g in flows && y[g] < x[g] && AtMost(x, g, f)
    }

    /** If y gives f more than x but the link no more in all, y gives some flow on the link less. */
    lemma {:induction false} SomebodyPays(x: seq<real>, y: seq<real>, f: nat, l: nat, n: nat) returns (g: nat)
      requires n <= |adj| == |x| == |y| && f in flows && f < |adj| && l in adj[f] && y[f] > x[f]
      requires if f < n then LoadUpTo(adj, y, flows, l, n) <= LoadUpTo(adj, x, flows, l, n)
               else LoadUpTo(adj, y, flows, l, n) < LoadUpTo(adj, x, flows, l, n)
      ensures g < n && g in flows && l in adj[g] && y[g] < x[g]
    {
      var k := n - 1;
      if k in flows && l in adj[k] && y[k] < x[k] {
        g := k;
      } else {
        if k in flows && l in adj[k] {
          CarriedGrows(adj[k], l, x[k], y[k]);
        } else if l !in adj[k] {
          CarriedNone(adj[k], l, x[k]);
          CarriedNone(adj[k], l, y[k]);
        }
        g := SomebodyPays(x, y, f, l, k);
      }
    }

    lemma BottleneckedIsFair(x: seq<real>)
      requires Valid() && |x| == |adj| && Feasible(x) && Bottlenecked(x)
      ensures MaxMinFair(x)
    {
      forall y, f | Allocation(y) && Feasible(y) && 0 <= f < |adj| && f in flows && weight[f] > 0.0 && y[f] > x[f]
        ensures exists g :: 0 <= g < |adj| && g in flows && y[g] < x[g] && AtMost(x, g, f)
      {
        var l :| Bottleneck(x, f, l);
        var g := SomebodyPays(x, y, f, l, |adj|);
      }
    }

    /** f has the smallest factor, in x or in y, among the flows on which the two differ. */
    ghost predicate Least(x: seq<real>, y: seq<real>, f: nat, n: nat)
      requires n <= |adj| == |x| == |y| == |weight|
    {
      && f < n && Differs(x, y, f)
      && forall g | 0 <= g < n && Differs(x, y, g) :: Smaller(x, y, f) * weight[g] <= Smaller(x, y, g) * weight[f]
    }

    lemma LeastSymmetric(x: seq<real>, y: seq<real>, f: nat, n: nat)
      requires n <= |adj| == |x| == |y| == |weight| && Least(x, y, f, n)
      ensures Least(y, x, f, n)
    {
      forall g | 0 <= g < n && Differs(y, x, g) ensures Smaller(y, x, f) * weight[g] <= Smaller(y, x, g) * weight[f] {
        assert Differs(x, y, g);
      }
    }

    ghost predicate Differs(x: seq<real>, y: seq<real>, f: nat)
      requires f < |adj| == |x| == |y| == |weight|
    {
      f in flows && weight[f] > 0.0 && x[f] != y[f]
    }

    ghost function Smaller(x: seq<real>, y: seq<real>, f: nat): real
      requires f < |x| == |y|
    {
      if x[f] < y[f] then x[f] else y[f]
    }

    lemma {:induction false} LeastExists(x: seq<real>, y: seq<real>, h: nat, n: nat) returns (f: nat)
      requires h < n <= |adj| == |x| == |y| == |weight| && Differs(x, y, h)
      ensures Least(x, y, f, n)
      decreases n
    {
      var last := n - 1;
      if k :| 0 <= k < last && Differs(x, y, k) {
        f := LeastExists(x, y, k, last);
        if Differs(x, y, last) && Smaller(x, y, last) * weight[f] < Smaller(x, y, f) * weight[last] {
          LastIsLeast(x, y, f, last);
          f := last;
        }
      } else {
        f := last;
      }
    }

    lemma LastIsLeast(x: seq<real>, y: seq<real>, f: nat, last: nat)
      requires last < |adj| == |x| == |y| == |weight| && Least(x, y, f, last) && Differs(x, y, last)
      requires Smaller(x, y, last) * weight[f] < Smaller(x, y, f) * weight[last]
      ensures Least(x, y, last, last + 1)
    {
      forall g | 0 <= g < last + 1 && Differs(x, y, g)
        ensures Smaller(x, y, last) * weight[g] <= Smaller(x, y, g) * weight[last]
      {
        if g < last {
          ChainAtMost(Smaller(x, y, last), weight[last], Smaller(x, y, f), weight[f], Smaller(x, y, g), weight[g]);
        }
      }
    }

    /** Where x gives f less than y does, some flow differs whose factor in y is even smaller. */
    lemma SmallerDiffers(x: seq<real>, y: seq<real>, f: nat) returns (g: nat)
      requires Valid() && Allocation(x) && Allocation(y) && MaxMinFair(x) && Feasible(y)
      requires forall k | 0 <= k < |adj| && weight[k] == 0.0 :: x[k] == 0.0 && y[k] == 0.0
      requires f < |adj| && Differs(x, y, f) && x[f] < y[f]
      ensures g < |adj| && Differs(x, y, g) && Smaller(x, y, g) * weight[f] < Smaller(x, y, f) * weight[g]
    {
      g :| 0 <= g < |adj| && g in flows && y[g] < x[g] && AtMost(x, g, f);
      assert weight[g] > 0.0;
      assert y[g] * weight[f] < x[g] * weight[f];
    }

    /** There is only one max-min fair allocation: the flows of positive weight have no choice. */
    lemma FairIsUnique(x: seq<real>, y: seq<real>, h: nat)
      requires Valid() && Allocation(x) && Allocation(y) && MaxMinFair(x) && MaxMinFair(y)
      requires forall f | 0 <= f < |adj| && weight[f] == 0.0 :: x[f] == 0.0 && y[f] == 0.0
      requires h < |adj| && h in flows
      ensures x[h] == y[h]
    {
      if x[h] != y[h] {
        assert Differs(x, y, h);
        var f := LeastExists(x, y, h, |adj|);
        if x[f] < y[f] {
          var g := SmallerDiffers(x, y, f);
          assert false;
        } else {
          LeastSymmetric(x, y, f, |adj|);
          var g := SmallerDiffers(y, x, f);
          assert false;
        }
      }
    }
  }

  lemma ChainAtMost(a: real, wa: real, b: real, wb: real, c: real, wc: real)
    requires wa > 0.0 && wb > 0.0 && wc > 0.0 && a * wb <= b * wa && b * wc <= c * wb
    ensures a * wc <= c * wa
  {
    assert a * wb * wc <= b * wa * wc;
    assert b * wc * wa <= c * wb * wa;
    assert wb * (a * wc) <= wb * (c * wa);
  }
}
