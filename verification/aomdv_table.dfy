// The AOMDV routing table of a node: entry objects by destination (ns-2.35/aomdv/aomdv_rtable.cc).
module AomdvTable {
  import opened AomdvPaths
  import opened AomdvRtable

  /** The routing table: one entry object per destination, and the table they stand for. */
  class Rtable {
    var entries: map<Addr, RtEntry>
    ghost var table: Table
    ghost var repr: set<object>

    ghost predicate Held(d: Addr)
      requires d in entries && d in table
      reads this, repr
    {
      && entries[d] in repr && (forall c | c in entries[d].repr :: c in repr) && entries[d].Valid()
      && entries[d].dst == d && entries[d].Value() == table[d]
    }

    ghost predicate Valid()
      reads this, repr
    {
      this !in repr && entries.Keys == table.Keys && Right()
    }

    ghost predicate Right()
      reads this, repr
    {
      entries.Keys == table.Keys && forall d | d in entries :: Held(d)
    }

    /** In every entry the counter is the number of paths the table has for it. */
    lemma CountersRight()
      requires Valid()
      ensures forall d | d in entries :: d in table && entries[d].numPaths == |table[d].paths|
    {
      forall d | d in entries ensures entries[d].numPaths == |table[d].paths| {
        assert Held(d);
      }
    }

    constructor ()
      ensures Valid() && table == map[] && fresh(repr)
    {
      entries, table, repr := map[], map[], {};
    }

    /** Only the entry object for d has changed, and what the table says of it. */
    twostate lemma Settled(d: Addr)
      requires old(Valid()) && entries == old(entries) && d in entries && entries[d].Valid() && this !in repr
      requires table == old(table)[d := entries[d].Value()] && old(repr) <= repr
               && (forall c | c in entries[d].repr :: c in repr)
      requires forall o | o in old(repr) && o != entries[d] && o !in old(entries[d].repr) :: unchanged(o)
      ensures Valid()
    {
      assert old(Held(d));
      forall x | x in entries && x != d ensures Held(x) {
        assert old(Held(x)) && unchanged(entries[x]);
        assert old(entries[d].Right()) && old(entries[x].Right());
        assert forall c | c in entries[x].repr :: c in old(repr) && c !in old(entries[d].repr);
      }
    }

    method Knows(d: Addr) returns (known: bool)
      requires Valid()
      ensures known <==> d in table
    {
      known := d in entries;
    }

    method Destinations() returns (ds: set<Addr>)
      requires Valid()
      ensures ds == table.Keys
    {
      ds := entries.Keys;
    }

    /** rt_lookup. */
    method Get(d: Addr) returns (rt: RtEntry)
      requires Valid() && d in table
      ensures rt == entries[d] && rt.Valid() && rt.Value() == table[d]
    {
      assert Held(d);
      rt := entries[d];
    }

    /** rt_lookup, and rt_add if there is no entry. */
    method Add(d: Addr)
      requires Valid()
      modifies this
      ensures Valid() && fresh(repr - old(repr)) && table == old(table)[d := Lookup(old(table), d)]
    {
      if d in entries {
        assert table == table[d := table[d]];
      } else {
        var rt := new RtEntry(d);
        entries, table, repr := entries[d := rt], table[d := FreshEntry], repr + {rt};
        forall x | x in entries ensures Held(x) {
          assert x != d ==> old(Held(x));
        }
      }
    }

    method RenewAt(d: Addr, seqno: nat, p: Path)
      requires d in entries && d in table && Held(d) && this !in repr
      modifies `table, `repr, entries[d], entries[d].repr
      ensures d in table && Held(d) && repr == old(repr) + entries[d].repr && fresh(repr - old(repr))
      ensures table == old(table)[d := Renewed(old(table)[d], seqno, p)]
    {
      var rt := entries[d];
      var path := rt.Renew(seqno, p.nexthop, p.hopcount, p.expire, p.lasthop);
      table, repr := table[d := rt.Value()], repr + {path};
    }

    /** The old paths go, one comes. */
    method Renew(d: Addr, seqno: nat, p: Path)
      requires Valid() && d in table
      modifies `table, `repr, repr
      ensures Valid() && fresh(repr - old(repr)) && table == old(table)[d := Renewed(old(table)[d], seqno, p)]
    {
      assert Held(d);
      RenewAt(d, seqno, p);
      Settled(d);
    }

    method InsertAt(d: Addr, p: Path)
      requires d in entries && d in table && Held(d) && this !in repr
      modifies `table, `repr, entries[d], entries[d].repr
      ensures d in table && Held(d) && repr == old(repr) + entries[d].repr && fresh(repr - old(repr))
      ensures table == old(table)[d := old(table)[d].(paths := old(table)[d].paths + [p])]
    {
      var rt := entries[d];
      var path := rt.PathInsert(p.nexthop, p.hopcount, p.expire, p.lasthop);
      table, repr := table[d := rt.Value()], repr + {path};
    }

    method Insert(d: Addr, p: Path)
      requires Valid() && d in table
      modifies `table, `repr, repr
      ensures Valid() && fresh(repr - old(repr))
      ensures table == old(table)[d := old(table)[d].(paths := old(table)[d].paths + [p])]
    {
      assert Held(d);
      InsertAt(d, p);
      Settled(d);
    }

    method Prolong(d: Addr, nexthop: Addr, lasthop: Addr, expire: real) returns (found: bool)
      requires Valid() && d in table
      modifies `table, repr
      ensures Valid() && found == Has(old(table)[d].paths, Same(nexthop, lasthop))
      ensures var e := old(table)[d];
              table == old(table)[d := e.(paths := Extend(e.paths, Same(nexthop, lasthop), expire))]
    {
      var rt := Get(d);
      assert Held(d);
      found := rt.Prolong(nexthop, lasthop, expire);
      table := table[d := rt.Value()];
      Settled(d);
    }

    method Announce(d: Addr, marked: bool) returns (hops: nat, first: Path)
      requires Valid() && d in table && table[d].paths != []
      modifies `table, repr
      ensures Valid() && table == old(table)[d := Announced(old(table)[d], marked)]
      ensures hops == table[d].adv && first == table[d].paths[0]
    {
      var rt := Get(d);
      assert Held(d);
      var path := rt.Announce(marked);
      hops, first := rt.adv, path.Value();
      table := table[d := rt.Value()];
      Settled(d);
    }

    /** The first path, through path_find, gets a new lifetime. */
    method UseFirst(d: Addr, expire: real) returns (first: PathCell)
      requires Valid() && d in table && table[d].paths != []
      modifies `table, repr
      ensures Valid() && first.nexthop == old(table)[d].paths[0].nexthop
      ensures var e := old(table)[d];
              table == old(table)[d := e.(paths := e.paths[0 := e.paths[0].(expire := expire)])]
    {
      var rt := Get(d);
      assert Held(d);
      first := rt.UseFirst(expire);
      table := table[d := rt.Value()];
      Settled(d);
    }

    method Delete(d: Addr, id: Addr)
      requires Valid() && d in table
      modifies `table, repr
      ensures Valid()
      ensures table == old(table)[d := old(table)[d].(paths := AomdvPaths.Delete(old(table)[d].paths, NextIs(id)))]
    {
      var rt := Get(d);
      assert Held(d);
      rt.PathDelete(id);
      table := table[d := rt.Value()];
      Settled(d);
    }

    method Purge(d: Addr, now: real)
      requires Valid() && d in table
      modifies `table, repr
      ensures Valid() && table == old(table)[d := old(table)[d].(paths := Unexpired(old(table)[d].paths, now))]
    {
      var rt := Get(d);
      assert Held(d);
      rt.PathPurge(now);
      table := table[d := rt.Value()];
      Settled(d);
    }

    method GoDown(d: Addr)
      requires Valid() && d in table
      modifies `table, repr
      ensures Valid() && table == old(table)[d := RtDown(old(table)[d])]
    {
      var rt := Get(d);
      assert Held(d);
      rt.GoDown();
      table := table[d := rt.Value()];
      Settled(d);
    }

    method Number(d: Addr, seqno: nat, highest: nat)
      requires Valid() && d in table
      modifies `table, repr
      ensures Valid() && table == old(table)[d := old(table)[d].(seqno := seqno, highest := highest)]
    {
      var rt := Get(d);
      assert Held(d);
      rt.Number(seqno, highest);
      table := table[d := rt.Value()];
      Settled(d);
    }

    method Mark(d: Addr, error: bool)
      requires Valid() && d in table
      modifies `table, repr
      ensures Valid() && table == old(table)[d := old(table)[d].(error := error)]
    {
      var rt := Get(d);
      assert Held(d);
      rt.Mark(error);
      table := table[d := rt.Value()];
      Settled(d);
    }
  }
}
