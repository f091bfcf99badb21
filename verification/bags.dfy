/** Multisets of everything held in the lists of a dictionary, whatever order the dictionary is walked in. */
module Bags {

  /** All values of all lists of m, with multiplicity. */
  ghost function BagOf<K, V>(m: map<K, seq<V>>): multiset<V>
    decreases m.Keys
  {
    if m == map[] then multiset{}
    else
      assert m.Keys != {};
      var k :| k in m.Keys;
      multiset(m[k]) + BagOf(m - {k})
  }

  /** The bag does not depend on which key is taken out first. */
  lemma {:induction false} BagRemove<K, V>(m: map<K, seq<V>>, k: K)
    requires k in m
    ensures BagOf(m) == multiset(m[k]) + BagOf(m - {k})
    decreases m.Keys
  {
    assert m != map[];
    var pick :| pick in m.Keys && BagOf(m) == multiset(m[pick]) + BagOf(m - {pick});
    if pick != k {
      BagRemove(m - {pick}, k);
      BagRemove(m - {k}, pick);
      assert m - {pick} - {k} == m - {k} - {pick};
    }
  }

  /** Replacing one list replaces exactly its contribution. */
  lemma BagUpdate<K, V>(m: map<K, seq<V>>, k: K, s: seq<V>)
    ensures BagOf(m[k := s]) == multiset(s) + BagOf(m - {k})
    ensures k !in m ==> BagOf(m[k := s]) == multiset(s) + BagOf(m)
    ensures k in m ==> BagOf(m) == multiset(m[k]) + BagOf(m - {k})
  {
    BagRemove(m[k := s], k);
    assert m[k := s] - {k} == m - {k};
    if k in m {
      BagRemove(m, k);
    } else {
      assert m - {k} == m;
    }
  }

  /** A value is in the bag exactly when some list holds it. */
  lemma {:induction false} BagMember<K, V>(m: map<K, seq<V>>, v: V)
    ensures v in BagOf(m) <==> exists k :: k in m && v in m[k]
    decreases m.Keys
  {
    if m != map[] {
      var pick :| pick in m.Keys && BagOf(m) == multiset(m[pick]) + BagOf(m - {pick});
      BagMember(m - {pick}, v);
      assert forall k :: k in m <==> k == pick || k in m - {pick};
    }
  }

  /** Dictionaries whose lists are all empty have an empty bag. */
  lemma {:induction false} BagEmpty<K, V>(m: map<K, seq<V>>)
    requires forall k :: k in m ==> m[k] == []
    ensures BagOf(m) == multiset{}
    decreases m.Keys
  {
    if m != map[] {
      var pick :| pick in m.Keys && BagOf(m) == multiset(m[pick]) + BagOf(m - {pick});
      BagEmpty(m - {pick});
    }
  }

  /** The keys whose list holds v. */
  ghost function HoldersIn<K, V>(m: map<K, seq<V>>, v: V): set<K>
  {
    set k | k in m && v in m[k]
  }

  /** If no list repeats v, its multiplicity is the number of lists that hold it. */
  lemma {:induction false} BagCount<K, V>(m: map<K, seq<V>>, v: V)
    requires forall k :: k in m ==> multiset(m[k])[v] <= 1
    ensures BagOf(m)[v] == |HoldersIn(m, v)|
    decreases m.Keys
  {
    if m == map[] {
      assert HoldersIn(m, v) == {};
    } else {
      var pick :| pick in m.Keys && BagOf(m) == multiset(m[pick]) + BagOf(m - {pick});
      BagCount(m - {pick}, v);
      HoldersSplit(m, v, pick);
    }
  }

  lemma HoldersSplit<K, V>(m: map<K, seq<V>>, v: V, k: K)
    requires k in m && multiset(m[k])[v] <= 1
    ensures |HoldersIn(m, v)| == multiset(m[k])[v] + |HoldersIn(m - {k}, v)|
  {
    var rest := HoldersIn(m - {k}, v);
    assert v in m[k] <==> v in multiset(m[k]);
    if v in m[k] {
      assert HoldersIn(m, v) == rest + {k};
    } else {
      assert HoldersIn(m, v) == rest;
    }
  }

  /** The next key in whatever order the dictionary is walked. */
  method AnyOf<T>(s: set<T>) returns (h: T)
    requires s != {}
    ensures h in s
  {
    h :| h in s;
  }

  lemma SomeOf<T>(s: set<T>) returns (h: T)
    requires s != {}
    ensures h in s
  {
    h :| h in s;
  }
}
