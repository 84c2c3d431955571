// What several of the models use.
module Common {

  datatype Option<T> = None | Some(value: T)

  ghost predicate Distinct<T>(s: seq<T>) {
    forall i, j | 0 <= i < j < |s| :: s[i] != s[j]
  }

  lemma {:induction false} DistinctFit<T>(p: seq<T>, nodes: set<T>)
    requires Distinct(p) && forall i | 0 <= i < |p| :: p[i] in nodes
    ensures |p| <= |nodes|
  {
    if p != [] {
      var last := p[|p| - 1];
      var rest := p[..|p| - 1];
      forall i | 0 <= i < |rest| ensures rest[i] in nodes - {last} {
        assert rest[i] == p[i];
      }
      DistinctFit(rest, nodes - {last});
    }
  }

  /** The remainder within two rounds. */
  lemma ModSmall(a: int, m: int)
    requires 0 <= a < 2 * m
    ensures a % m == if a < m then a else a - m
  {
    if a >= m {
      assert a == 1 * m + (a - m);
      assert a / m == 1;
    }
  }

  /** Any number of members of a set, one after the other. */
  lemma {:induction false} Listing<T>(nodes: set<T>, n: nat) returns (ns: seq<T>)
    requires n <= |nodes|
    ensures |ns| == n && Distinct(ns) && forall i | 0 <= i < n :: ns[i] in nodes
  {
    if n == 0 {
      ns := [];
    } else {
      var a :| a in nodes;
      var rest := Listing<T>(nodes - {a}, n - 1);
      ns := [a] + rest;
    }
  }
}
