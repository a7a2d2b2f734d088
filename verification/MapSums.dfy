/** Sums over finite maps. */
module MapSums {

  ghost function Sum<K>(m: map<K, int>, s: set<K>): int
    requires s <= m.Keys
  {
    if s == {} then 0 else
      var x :| x in s;
      m[x] + Sum(m, s - {x})
  }

  lemma {:induction false} SumSplit<K>(m: map<K, int>, s: set<K>, x: K)
    requires s <= m.Keys && x in s
    ensures Sum(m, s) == m[x] + Sum(m, s - {x})
    decreases s
  {
    var y :| y in s && Sum(m, s) == m[y] + Sum(m, s - {y});
    if y != x {
      SumSplit(m, s - {y}, x);
      SumSplit(m, s - {x}, y);
      assert s - {y} - {x} == s - {x} - {y};
    }
  }

  lemma {:induction false} SumSame<K>(m: map<K, int>, m': map<K, int>, s: set<K>)
    requires s <= m.Keys && s <= m'.Keys && forall x :: x in s ==> m[x] == m'[x]
    ensures Sum(m, s) == Sum(m', s)
    decreases s
  {
    if x :| x in s {
      SumSplit(m, s, x);
      SumSplit(m', s, x);
      SumSame(m, m', s - {x});
    }
  }

  // The sum after one entry has been set.
  lemma SumSet<K>(m: map<K, int>, s: set<K>, x: K, v: int)
    requires s <= m.Keys
    ensures Sum(m[x := v], s + {x}) == (if x in s then Sum(m, s) - m[x] else Sum(m, s)) + v
  {
    var m' := m[x := v];
    SumSplit(m', s + {x}, x);
    assert s + {x} - {x} == s - {x};
    SumSame(m, m', s - {x});
    if x in s { SumSplit(m, s, x); } else { assert s - {x} == s; }
  }

  lemma SumDrop<K>(m: map<K, int>, x: K)
    requires x in m
    ensures Sum(m - {x}, m.Keys - {x}) == Sum(m, m.Keys) - m[x]
  {
    SumSplit(m, m.Keys, x);
    SumSame(m, m - {x}, m.Keys - {x});
  }

  lemma {:induction false} SumZero<K>(m: map<K, int>, s: set<K>)
    requires s <= m.Keys && forall x :: x in s ==> m[x] == 0
    ensures Sum(m, s) == 0
    decreases s
  {
    if x :| x in s {
      SumSplit(m, s, x);
      SumZero(m, s - {x});
    }
  }

  lemma {:induction false} SumAtMost<K>(m: map<K, int>, m': map<K, int>, s: set<K>)
    requires s <= m.Keys && s <= m'.Keys && forall x :: x in s ==> m[x] <= m'[x]
    ensures Sum(m, s) <= Sum(m', s)
    decreases s
  {
    if x :| x in s {
      SumSplit(m, s, x);
      SumSplit(m', s, x);
      SumAtMost(m, m', s - {x});
    }
  }

  /** Lowering an entry, and raising none, lowers the sum. */
  lemma SumLess<K>(m: map<K, int>, m': map<K, int>, s: set<K>, y: K)
    requires s <= m.Keys && s <= m'.Keys && forall x :: x in s ==> m[x] <= m'[x]
    requires y in s && m[y] < m'[y]
    ensures Sum(m, s) < Sum(m', s)
  {
    SumSplit(m, s, y);
    SumSplit(m', s, y);
    SumAtMost(m, m', s - {y});
  }

  lemma {:induction false} SumNatural<K>(m: map<K, int>, s: set<K>)
    requires s <= m.Keys && forall x :: x in s ==> m[x] >= 0
    ensures Sum(m, s) >= 0
    decreases s
  {
    if x :| x in s {
      SumSplit(m, s, x);
      SumNatural(m, s - {x});
    }
  }
}
