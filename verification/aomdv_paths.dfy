// The path list of an AOMDV routing entry (ns-2.35/aomdv/aomdv_rtable.cc).
module AomdvPaths {

  type Addr = nat

  const INFINITY2: nat := 255

  datatype Path = Path(nexthop: Addr, hopcount: nat, expire: real, lasthop: Addr)

  /** What the list is searched for. */
  datatype Query =
    | NextIs(id: Addr)
    | LastIs(id: Addr)
    | Same(nexthop: Addr, lasthop: Addr)
    | Meets(nexthop: Addr, lasthop: Addr)
    | ExpiredAt(now: real)
  {
    predicate Matches(p: Path) {
      match this
      case NextIs(id) => p.nexthop == id
      case LastIs(id) => p.lasthop == id
      case Same(n, l) => p.nexthop == n && p.lasthop == l
      case Meets(n, l) => p.nexthop == n || p.lasthop == l
      case ExpiredAt(now) => p.expire < now
    }
  }

  /** The position of the first path that matches, or the length of the list. */
  function First(ps: seq<Path>, q: Query): (i: nat)
    ensures i <= |ps|
    ensures forall j | 0 <= j < i :: !q.Matches(ps[j])
    ensures i < |ps| ==> q.Matches(ps[i])
  {
    if ps == [] || q.Matches(ps[0]) then 0 else 1 + First(ps[1..], q)
  }

  predicate Has(ps: seq<Path>, q: Query) {
    First(ps, q) < |ps|
  }

  function Delete(ps: seq<Path>, q: Query): seq<Path> {
    var i := First(ps, q);
    if i < |ps| then ps[..i] + ps[i + 1..] else ps
  }

  function Extend(ps: seq<Path>, q: Query, expire: real): seq<Path> {
    var i := First(ps, q);
    if i < |ps| then ps[i := ps[i].(expire := if ps[i].expire > expire then ps[i].expire else expire)] else ps
  }

  /** path_get_max_hopcount; an empty list, or one of zeros, has no hop count. */
  function MaxHop(ps: seq<Path>): nat {
    var m := Longest(ps);
    if m == 0 then INFINITY2 else m
  }

  function Longest(ps: seq<Path>): (m: nat)
    ensures forall p | p in ps :: p.hopcount <= m
    ensures m > 0 ==> exists p | p in ps :: p.hopcount == m
  {
    if ps == [] then 0
    else
      var init, last := ps[..|ps| - 1], ps[|ps| - 1];
      assert ps == init + [last];
      if last.hopcount > Longest(init) then last.hopcount else Longest(init)
  }

  function MinHop(ps: seq<Path>): (m: nat)
    ensures m <= INFINITY2 && forall p | p in ps :: m <= p.hopcount
    ensures m < INFINITY2 ==> exists p | p in ps :: p.hopcount == m
  {
    if ps == [] then INFINITY2
    else
      var init, last := ps[..|ps| - 1], ps[|ps| - 1];
      assert ps == init + [last];
      if last.hopcount < MinHop(init) then last.hopcount else MinHop(init)
  }

  function Kept(p: Path, now: real): seq<Path> {
    if p.expire < now then [] else [p]
  }

  /** The paths that have not expired, in their order. */
  function Unexpired(ps: seq<Path>, now: real): seq<Path> {
    if ps == [] then [] else Kept(ps[0], now) + Unexpired(ps[1..], now)
  }

  lemma {:induction false} UnexpiredConcat(a: seq<Path>, b: seq<Path>, now: real)
    ensures Unexpired(a + b, now) == Unexpired(a, now) + Unexpired(b, now)
  {
    if a == [] {
      assert a + b == b;
    } else {
      UnexpiredConcat(a[1..], b, now);
      UnexpiredFirst(a, b, now);
      Associate(Kept(a[0], now), Unexpired(a[1..], now), Unexpired(b, now));
    }
  }

  lemma UnexpiredFirst(a: seq<Path>, b: seq<Path>, now: real)
    requires a != []
    ensures Unexpired(a + b, now) == Kept(a[0], now) + Unexpired(a[1..] + b, now)
  {
    assert (a + b)[1..] == a[1..] + b;
  }

  lemma Associate(a: seq<Path>, b: seq<Path>, c: seq<Path>)
    ensures (a + b) + c == a + (b + c)
  {
  }

  lemma {:induction false} NoneExpired(ps: seq<Path>, now: real)
    requires forall p | p in ps :: p.expire >= now
    ensures Unexpired(ps, now) == ps
  {
    if ps != [] {
      NoneExpired(ps[1..], now);
    }
  }

  /** Removing one expired path does not change what will be left. */
  lemma DeleteExpired(ps: seq<Path>, now: real)
    requires Has(ps, ExpiredAt(now))
    ensures Unexpired(Delete(ps, ExpiredAt(now)), now) == Unexpired(ps, now)
    ensures |Delete(ps, ExpiredAt(now))| == |ps| - 1
  {
    var i := First(ps, ExpiredAt(now));
    assert ps == ps[..i] + ([ps[i]] + ps[i + 1..]);
    UnexpiredConcat(ps[..i], [ps[i]] + ps[i + 1..], now);
    UnexpiredConcat(ps[..i], ps[i + 1..], now);
  }

  /** What is left are exactly the unexpired paths. */
  lemma {:induction false} UnexpiredMembers(ps: seq<Path>, now: real)
    ensures forall p :: p in Unexpired(ps, now) <==> p in ps && p.expire >= now
  {
    if ps != [] {
      UnexpiredMembers(ps[1..], now);
      assert ps == [ps[0]] + ps[1..];
    }
  }

  // ----- disjointness -----

  ghost predicate Disjoint(ps: seq<Path>) {
    forall i, j | 0 <= i < j < |ps| :: ps[i].nexthop != ps[j].nexthop && ps[i].lasthop != ps[j].lasthop
  }

  lemma InsertDisjoint(ps: seq<Path>, p: Path)
    requires Disjoint(ps) && !Has(ps, Meets(p.nexthop, p.lasthop))
    ensures Disjoint(ps + [p])
  {
  }

  lemma DisjointCons(p: Path, ps: seq<Path>)
    requires Disjoint(ps) && forall q | q in ps :: p.nexthop != q.nexthop && p.lasthop != q.lasthop
    ensures Disjoint([p] + ps)
  {
  }

  lemma {:induction false} UnexpiredDisjoint(ps: seq<Path>, now: real)
    requires Disjoint(ps)
    ensures Disjoint(Unexpired(ps, now)) && |Unexpired(ps, now)| <= |ps|
  {
    if ps != [] {
      var rest := ps[1..];
      UnexpiredDisjoint(rest, now);
      UnexpiredMembers(rest, now);
      forall q | q in rest ensures ps[0].nexthop != q.nexthop && ps[0].lasthop != q.lasthop {
        var i :| 0 <= i < |rest| && rest[i] == q;
        assert ps[i + 1] == q;
      }
      DisjointCons(ps[0], Unexpired(rest, now));
    }
  }
}
