// The AOMDV routing entry with its linked list of paths (ns-2.35/aomdv/aomdv_rtable.cc).
module AomdvRtable {
  import opened AomdvPaths

  datatype Flag = Down | Up

  /** Stands for "nothing advertised yet"; no hop count ever reaches it. */
  const INFINITY: nat := 0x3fff

  /** `adv` is the advertised hop count. */
  datatype Entry = Entry(seqno: nat, adv: nat, paths: seq<Path>, highest: nat, flag: Flag, error: bool)

  type Table = map<Addr, Entry>

  /** Made with INFINITY2, but under number zero, which nobody offers. */
  const FreshEntry := Entry(0, INFINITY2, [], 0, Down, false)

  function Lookup(t: Table, d: Addr): Entry {
    if d in t then t[d] else FreshEntry
  }

  /** A route with a newer sequence number replaces every path there was. */
  function Renewed(e: Entry, seqno: nat, p: Path): Entry {
    e.(seqno := seqno, adv := INFINITY, paths := [p], flag := Up)
  }

  /** The route advertisement: fixed the first time it is needed. */
  function Advertised(e: Entry): Entry {
    if e.adv == INFINITY then e.(adv := MaxHop(e.paths)) else e
  }

  function Announced(e: Entry, marked: bool): Entry {
    if marked then Advertised(e).(error := true) else Advertised(e)
  }

  function RtDown(e: Entry): Entry {
    if e.flag == Down then e else e.(flag := Down, adv := INFINITY, paths := [])
  }

  // ----- the list in memory -----

  class PathCell {
    const nexthop: Addr
    const hopcount: nat
    var expire: real
    const lasthop: Addr
    var next: PathCell?
    var prev: PathCell?
    /** The entry whose list the cell was made for. */
    ghost const owner: RtEntry

    constructor (nexthop: Addr, hopcount: nat, expire: real, lasthop: Addr, ghost owner: RtEntry)
      ensures Value() == Path(nexthop, hopcount, expire, lasthop) && next == null && prev == null && this.owner == owner
    {
      this.owner := owner;
      this.nexthop, this.hopcount, this.expire, this.lasthop := nexthop, hopcount, expire, lasthop;
      next, prev := null, null;
    }

    function Value(): Path
      reads this
    {
      Path(nexthop, hopcount, expire, lasthop)
    }
  }

  ghost function At(cells: seq<PathCell>, i: int): PathCell? {
    if 0 <= i < |cells| then cells[i] else null
  }

  /** The cell at position i has its value and both of its links. */
  ghost predicate Placed(cells: seq<PathCell>, paths: seq<Path>, i: nat)
    requires i < |cells| == |paths|
    reads cells[i]
  {
    cells[i].Value() == paths[i] && cells[i].next == At(cells, i + 1) && cells[i].prev == At(cells, i - 1)
  }

  ghost predicate AllPlaced(cells: seq<PathCell>, paths: seq<Path>)
    reads cells
  {
    && |cells| == |paths|
    && (forall i, j | 0 <= i < j < |cells| :: cells[i] != cells[j])
    && (forall i: nat | i < |cells| :: Placed(cells, paths, i))
  }

  /** The cell at position i has its value, and its links pass over the one at position k. */
  ghost predicate Bypassed(cells: seq<PathCell>, paths: seq<Path>, k: nat, i: nat)
    requires i < |cells| == |paths|
    reads cells[i]
  {
    && cells[i].Value() == paths[i]
    && cells[i].next == At(cells, if i + 1 == k then i + 2 else i + 1)
    && cells[i].prev == At(cells, if i == k + 1 then i - 2 else i - 1)
  }

  /** The cell at position i has its value and its links, and the last one is followed by one more. */
  ghost predicate Followed(cells: seq<PathCell>, paths: seq<Path>, more: PathCell, i: nat)
    requires i < |cells| == |paths|
    reads cells[i]
  {
    && cells[i].Value() == paths[i]
    && cells[i].next == (if i + 1 == |cells| then more else cells[i + 1])
    && cells[i].prev == At(cells, i - 1)
  }

  function Without<T>(s: seq<T>, k: nat): seq<T>
    requires k < |s|
  {
    s[..k] + s[k + 1..]
  }

  lemma FirstIs(ps: seq<Path>, q: Query, k: nat)
    requires k <= |ps| && (forall j | 0 <= j < k :: !q.Matches(ps[j])) && (k < |ps| ==> q.Matches(ps[k]))
    ensures First(ps, q) == k
  {
  }

  class RtEntry {
    const dst: Addr
    var seqno: nat
    var adv: nat
    var highest: nat
    var flag: Flag
    var error: bool
    var head: PathCell?
    var numPaths: int
    ghost var cells: seq<PathCell>
    ghost var paths: seq<Path>
    ghost var repr: set<PathCell>

    ghost predicate Valid()
      reads this, repr
    {
      numPaths == |paths| == |cells| && Right()
    }

    /** The counter is the length of the list, and the list holds `paths`. */
    ghost predicate Right()
      reads this, repr
    {
      && (forall c | c in repr :: c.owner == this)
      && (forall c | c in cells :: c in repr)
      && AllPlaced(cells, paths) && head == At(cells, 0)
    }

    ghost function Value(): Entry
      reads this
    {
      Entry(seqno, adv, paths, highest, flag, error)
    }

    constructor (dst: Addr)
      ensures Valid() && Value() == FreshEntry && repr == {} && this.dst == dst
    {
      this.dst := dst;
      seqno, adv, highest, flag, error := 0, INFINITY2, 0, Down, false;
      head, numPaths := null, 0;
      cells, paths, repr := [], [], {};
    }

    /** Walks to the last cell and links the new one behind it. */
    method PathInsert(nexthop: Addr, hopcount: nat, expire: real, lasthop: Addr) returns (path: PathCell)
      requires Valid()
      modifies this, repr
      ensures Valid() && fresh(path) && repr == old(repr) + {path} && numPaths == old(numPaths) + 1
      ensures Value() == old(Value()).(paths := old(paths) + [Path(nexthop, hopcount, expire, lasthop)])
    {
      path := new PathCell(nexthop, hopcount, expire, lasthop, this);
      var p := head;
      if p != null {
        ghost var k := 0;
        assert Placed(cells, paths, 0);
        while p.next != null
          invariant 0 <= k < |cells| && p == cells[k] && p.next == At(cells, k + 1)
          decreases |cells| - k
        {
          p := p.next;
          k := k + 1;
          assert Placed(cells, paths, k);
        }
        p.next := path;
        path.prev := p;
        assert k == |cells| - 1;
      } else {
        head := path;
      }
      numPaths := numPaths + 1;
      forall i: nat | i < |cells| ensures Followed(cells, paths, path, i) {
        assert old(Placed(cells, paths, i));
      }
      Append(path);
    }

    /** The ghost side of PathInsert. */
    ghost method Append(path: PathCell)
      requires |cells| == |paths| && numPaths == |cells| + 1 && path.owner == this
      requires (forall c | c in repr :: c.owner == this) && (forall c | c in cells :: c in repr && c != path)
      requires forall i, j | 0 <= i < j < |cells| :: cells[i] != cells[j]
      requires forall i: nat | i < |cells| :: Followed(cells, paths, path, i)
      requires path.next == null && path.prev == At(cells, |cells| - 1)
      requires head == if cells == [] then path else cells[0]
      modifies `cells, `paths, `repr
      ensures Valid() && cells == old(cells) + [path] && paths == old(paths) + [path.Value()]
              && repr == old(repr) + {path}
    {
      ghost var was, vals := cells, paths;
      cells, paths, repr := was + [path], vals + [path.Value()], repr + {path};
      forall i: nat | i < |cells| ensures Placed(cells, paths, i) {
        if i < |was| {
          assert Followed(was, vals, path, i);
        }
      }
    }

    /** path_lookup, disjoint_path_lookup and path_lookup_lasthop. */
    method Search(q: Query) returns (p: PathCell?, ghost k: nat)
      requires Valid()
      ensures k == First(paths, q) && p == At(cells, k) && (p != null <==> k < |paths|)
      ensures p != null ==> p.Value() == paths[k]
    {
      p, k := head, 0;
      while p != null
        invariant k <= |cells| && p == At(cells, k)
        invariant forall j | 0 <= j < k :: !q.Matches(paths[j])
        decreases |cells| - k
      {
        assert Placed(cells, paths, k);
        if q.Matches(p.Value()) {
          break;
        }
        p := p.next;
        k := k + 1;
      }
      assert k < |cells| ==> Placed(cells, paths, k);
      FirstIs(paths, q, k);
    }

    method Knows(q: Query) returns (known: bool)
      requires Valid()
      ensures known == Has(paths, q)
    {
      var p, k := Search(q);
      known := p != null;
    }

    method NewDisjointPath(nexthop: Addr, lasthop: Addr) returns (disjoint: bool)
      requires Valid()
      ensures disjoint <==> forall p | p in paths :: p.nexthop != nexthop && p.lasthop != lasthop
      ensures disjoint <==> !Has(paths, Meets(nexthop, lasthop))
    {
      var p, k := Search(Meets(nexthop, lasthop));
      disjoint := p == null;
      assert k < |paths| ==> paths[k] in paths;
    }

    method PathFind() returns (p: PathCell?)
      requires Valid()
      ensures p == At(cells, 0) && (p != null ==> p.Value() == paths[0])
    {
      p := head;
      assert p != null ==> Placed(cells, paths, 0);
    }

    /** Takes a cell out of the list. */
    method Unlink(p: PathCell, ghost k: nat)
      requires Valid() && k < |cells| && p == cells[k]
      modifies this, repr
      ensures Valid() && repr == old(repr) && numPaths == old(numPaths) - 1
      ensures Value() == old(Value()).(paths := Without(old(paths), k))
    {
      assert Placed(cells, paths, k);
      if p.next != null {
        p.next.prev := p.prev;
      }
      if p.prev != null {
        p.prev.next := p.next;
      } else {
        head := p.next;
      }
      numPaths := numPaths - 1;
      forall i: nat | i < |cells| && i != k ensures Bypassed(cells, paths, k, i) {
        assert old(Placed(cells, paths, i));
      }
      Close(k);
    }

    /** The ghost side of Unlink. */
    ghost method Close(k: nat)
      requires k < |cells| == |paths| && numPaths == |cells| - 1 && forall c | c in repr :: c.owner == this
      requires forall i | 0 <= i < |cells| :: cells[i] in repr
      requires forall i, j | 0 <= i < j < |cells| :: cells[i] != cells[j]
      requires forall i: nat | i < |cells| && i != k :: Bypassed(cells, paths, k, i)
      requires head == if k == 0 then At(cells, 1) else At(cells, 0)
      modifies `cells, `paths
      ensures Valid() && cells == Without(old(cells), k) && paths == Without(old(paths), k)
    {
      ghost var was, vals := cells, paths;
      cells, paths := Without(was, k), Without(vals, k);
      forall i: nat | i < |cells| ensures Placed(cells, paths, i) {
        assert cells[i] == if i < k then was[i] else was[i + 1];
        assert Bypassed(was, vals, k, if i < k then i else i + 1);
      }
    }

    method PathDelete(id: Addr)
      requires Valid()
      modifies this, repr
      ensures Valid() && repr == old(repr) && Value() == old(Value()).(paths := Delete(old(paths), NextIs(id)))
    {
      var p, k := Search(NextIs(id));
      if p != null {
        Unlink(p, k);
      }
    }

    method PathDeleteAll()
      requires Valid()
      modifies this, repr
      ensures Valid() && repr == old(repr) && Value() == old(Value()).(paths := [])
    {
      while head != null
        invariant Valid() && repr == old(repr) && Value() == old(Value()).(paths := paths)
        decreases |cells|
      {
        Unlink(head, 0);
      }
      numPaths := 0;
    }

    /** The counter and the list never disagree about emptiness, as both of the source's assertions say. */
    method PathEmpty() returns (empty: bool)
      requires Valid()
      ensures empty <==> paths == []
    {
      if head != null {
        assert numPaths > 0;
        return false;
      } else {
        assert numPaths == 0;
        return true;
      }
    }

    method GetMaxHopcount() returns (m: nat)
      requires Valid()
      ensures m == MaxHop(paths)
    {
      var max, p := 0, head;
      ghost var k := 0;
      while p != null
        invariant 0 <= k <= |cells| && p == At(cells, k) && max == Longest(paths[..k])
        decreases |cells| - k
      {
        assert Placed(cells, paths, k) && paths[..k + 1][..k] == paths[..k];
        if p.hopcount > max {
          max := p.hopcount;
        }
        p := p.next;
        k := k + 1;
      }
      assert paths[..|paths|] == paths;
      m := if max == 0 then INFINITY2 else max;
    }

    method GetMinHopcount() returns (m: nat)
      requires Valid()
      ensures m == MinHop(paths)
    {
      m := INFINITY2;
      var p := head;
      ghost var k := 0;
      while p != null
        invariant 0 <= k <= |cells| && p == At(cells, k) && m == MinHop(paths[..k])
        decreases |cells| - k
      {
        assert Placed(cells, paths, k) && paths[..k + 1][..k] == paths[..k];
        if p.hopcount < m {
          m := p.hopcount;
        }
        p := p.next;
        k := k + 1;
      }
      assert paths[..|paths|] == paths;
    }

    /** Looks for an expired path from the head on, and deletes it. */
    method PurgeOne(now: real) returns (cond: bool)
      requires Valid()
      modifies this, repr
      ensures Valid() && repr == old(repr) && Value() == old(Value()).(paths := paths)
      ensures Unexpired(paths, now) == Unexpired(old(paths), now)
      ensures if cond then |paths| < |old(paths)| else paths == old(paths) && !Has(paths, ExpiredAt(now))
    {
      var p, k := Search(ExpiredAt(now));
      cond := p != null;
      if cond {
        DeleteExpired(paths, now);
        Unlink(p, k);
      }
    }

    /** Deletes one expired path after the other, starting over each time. */
    method PathPurge(now: real)
      requires Valid()
      modifies this, repr
      ensures Valid() && repr == old(repr) && Value() == old(Value()).(paths := Unexpired(old(paths), now))
    {
      var cond := true;
      while cond
        invariant Valid() && repr == old(repr) && Value() == old(Value()).(paths := paths)
        invariant Unexpired(paths, now) == Unexpired(old(paths), now)
        invariant !cond ==> !Has(paths, ExpiredAt(now))
        decreases |paths|, cond
      {
        cond := PurgeOne(now);
      }
      NoneExpired(paths, now);
    }

    method SetExpire(p: PathCell, expire: real, ghost k: nat)
      requires Valid() && k < |cells| && p == cells[k]
      modifies this, repr
      ensures Valid() && repr == old(repr)
      ensures Value() == old(Value()).(paths := old(paths)[k := old(paths)[k].(expire := expire)])
    {
      p.expire := expire;
      paths := paths[k := paths[k].(expire := expire)];
      forall i: nat | i < |cells| ensures Placed(cells, paths, i) {
        assert old(Placed(cells, paths, i));
      }
    }

    /** path_find, for a packet to take: the first path gets a new lifetime. */
    method UseFirst(expire: real) returns (p: PathCell)
      requires Valid() && paths != []
      modifies this, repr
      ensures Valid() && repr == old(repr) && p.nexthop == old(paths)[0].nexthop
      ensures Value() == old(Value()).(paths := old(paths)[0 := old(paths)[0].(expire := expire)])
    {
      p := PathFind();
      SetExpire(p, expire, 0);
    }

    /** A path that is there already lives longer; tells whether it was found. */
    method Prolong(nexthop: Addr, lasthop: Addr, expire: real) returns (found: bool)
      requires Valid()
      modifies this, repr
      ensures Valid() && repr == old(repr) && found == Has(old(paths), Same(nexthop, lasthop))
      ensures Value() == old(Value()).(paths := Extend(old(paths), Same(nexthop, lasthop), expire))
    {
      var p, k := Search(Same(nexthop, lasthop));
      found := p != null;
      if found {
        SetExpire(p, if p.expire > expire then p.expire else expire, k);
      }
    }

    /** A newer sequence number: every path goes, one comes. */
    method Renew(seqno: nat, nexthop: Addr, hopcount: nat, expire: real, lasthop: Addr) returns (path: PathCell)
      requires Valid()
      modifies this, repr
      ensures Valid() && fresh(path) && repr == old(repr) + {path}
      ensures Value() == Renewed(old(Value()), seqno, Path(nexthop, hopcount, expire, lasthop))
    {
      this.seqno := seqno;
      adv := INFINITY;
      PathDeleteAll();
      flag := Up;
      path := PathInsert(nexthop, hopcount, expire, lasthop);
    }

    /** The route advertisement, in the words of the first path; others may now have to be told of errors. */
    method Announce(marked: bool) returns (first: PathCell)
      requires Valid() && paths != []
      modifies `adv, `error
      ensures Valid() && Value() == Announced(old(Value()), marked) && first.Value() == paths[0]
    {
      if adv == INFINITY {
        adv := GetMaxHopcount();
      }
      first := PathFind();
      if marked {
        error := true;
      }
    }

    method Number(seqno: nat, highest: nat)
      requires Valid()
      modifies `seqno, `highest
      ensures Valid() && Value() == old(Value()).(seqno := seqno, highest := highest)
    {
      this.seqno, this.highest := seqno, highest;
    }

    method Mark(error: bool)
      requires Valid()
      modifies `error
      ensures Valid() && Value() == old(Value()).(error := error)
    {
      this.error := error;
    }

    method GoDown()
      requires Valid()
      modifies this, repr
      ensures Valid() && repr == old(repr) && Value() == RtDown(old(Value()))
    {
      if flag == Down {
        return;
      }
      flag := Down;
      adv := INFINITY;
      PathDeleteAll();
    }
  }
}
