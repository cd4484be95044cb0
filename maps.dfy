/** Facts about finite sets and maps used by the registry's invariant. */
module Maps {

  /** A non-empty set has an element: one is returned as a witness. */
  lemma Pick<T>(s: set<T>) returns (x: T)
    requires s != {}
    ensures x in s
  {
    if forall y :: y !in s {
      assert false;
    }
    x :| x in s;
  }

  /** Every value of a map is stored under some key: one is returned. */
  lemma KeyOf<K, V>(m: map<K, V>, v: V) returns (k: K)
    requires v in m.Values
    ensures k in m && m[k] == v
  {
    if forall j :: j in m ==> m[j] != v {
      assert false;
    }
    k :| k in m && m[k] == v;
  }

  /** An element of a sequence sits at some index: one is returned. */
  lemma IndexOf<T>(s: seq<T>, x: T) returns (k: nat)
    requires x in s
    ensures k < |s| && s[k] == x
  {
    if forall j :: 0 <= j < |s| ==> s[j] != x {
      assert false;
    }
    k :| 0 <= k < |s| && s[k] == x;
  }

  /** No two keys of `m` share a value. */
  ghost predicate Injective<K, V>(m: map<K, V>)
  {
    forall a, b :: a in m && b in m && m[a] == m[b] ==> a == b
  }

  /** An injective map has exactly as many distinct values as keys. */
  lemma {:induction false} InjectiveCard<K, V>(m: map<K, V>)
    requires Injective(m)
    ensures |m.Values| == |m|
  {
    if m != map[] {
      var k := Pick(m.Keys);
      var rest := m - {k};
      assert rest.Keys == m.Keys - {k};
      forall v | v in m.Values
        ensures v in rest.Values + {m[k]}
      {
        var j := KeyOf(m, v);
        if j != k { assert rest[j] == v; }
      }
      assert m.Values == rest.Values + {m[k]};
      assert m[k] !in rest.Values;
      InjectiveCard(rest);
    }
  }
}
