/** The chained hash table of samples/dedup/hashtable.c.  A chain is the sequence of its entries,
    front first; `hash` is the scrambled hash of a key.  A key may be inserted again, which
    shadows its older values: a table stands for the values of each key, newest first. */
module Hashtable {
  import opened Wrappers

  datatype Entry<K, V> = Entry(h: nat, k: K, v: V)

  type Chain<K, V> = seq<Entry<K, V>>

  type Table<K, V> = seq<Chain<K, V>>

  function IndexFor(length: nat, h: nat): nat
    requires length > 0
  {
    h % length
  }

  // The values of k in a chain, front first.
  ghost function ValuesIn<K, V>(chain: Chain<K, V>, k: K): seq<V> {
    if chain == [] then [] else (if chain[0].k == k then [chain[0].v] else []) + ValuesIn(chain[1..], k)
  }

  // The values of k in the table.
  ghost function ValuesOf<K, V>(hash: K -> nat, t: Table<K, V>, k: K): seq<V>
    requires |t| > 0
  {
    ValuesIn(t[IndexFor(|t|, hash(k))], k)
  }

  // Every entry holds the hash of its key and sits in the bucket of that hash.
  ghost predicate Placed<K(!new), V(!new)>(hash: K -> nat, t: Table<K, V>) {
    |t| > 0 && forall i, e :: 0 <= i < |t| && e in t[i] ==> e.h == hash(e.k) && IndexFor(|t|, e.h) == i
  }

  ghost predicate Hashed<K(!new), V(!new)>(hash: K -> nat, chain: Chain<K, V>) {
    forall e :: e in chain ==> e.h == hash(e.k)
  }

  function Newest<V>(s: seq<V>): Option<V> {
    if s == [] then None else Some(s[0])
  }

  // The loop of hashtable_search.
  function Find<K(==), V>(chain: Chain<K, V>, h: nat, k: K): Option<V> {
    if chain == [] then None
    else if h == chain[0].h && k == chain[0].k then Some(chain[0].v)
    else Find(chain[1..], h, k)
  }

  lemma {:induction false} FindIs<K(!new), V(!new)>(hash: K -> nat, chain: Chain<K, V>, k: K)
    requires Hashed(hash, chain)
    ensures Find(chain, hash(k), k) == Newest(ValuesIn(chain, k))
  {
    if chain != [] {
      assert chain[0] in chain;
      FindIs(hash, chain[1..], k);
    }
  }

  /** The first match in its bucket is the newest value of a key. */
  lemma SearchIs<K(!new), V(!new)>(hash: K -> nat, t: Table<K, V>, k: K)
    requires Placed(hash, t)
    ensures Find(t[IndexFor(|t|, hash(k))], hash(k), k) == Newest(ValuesOf(hash, t, k))
  {
    FindIs(hash, t[IndexFor(|t|, hash(k))], k);
  }

  lemma FrontValues<K, V>(e: Entry<K, V>, c: Chain<K, V>, k: K)
    ensures ValuesIn([e] + c, k) == (if e.k == k then [e.v] else []) + ValuesIn(c, k)
  {
    assert ([e] + c)[1..] == c;
  }

  // An entry put in front of its chain.
  lemma LinkFront<K(!new), V(!new)>(hash: K -> nat, t: Table<K, V>, e: Entry<K, V>, t': Table<K, V>)
    requires Placed(hash, t) && e.h == hash(e.k)
    requires t' == t[IndexFor(|t|, e.h) := [e] + t[IndexFor(|t|, e.h)]]
    ensures Placed(hash, t') && ValuesOf(hash, t', e.k) == [e.v] + ValuesOf(hash, t, e.k)
    ensures forall k :: k != e.k ==> ValuesOf(hash, t', k) == ValuesOf(hash, t, k)
  {
    var i := IndexFor(|t|, e.h);
    FrontValues(e, t[i], e.k);
    forall k | k != e.k ensures ValuesOf(hash, t', k) == ValuesOf(hash, t, k) {
      FrontValues(e, t[i], k);
      assert [] + ValuesIn(t[i], k) == ValuesIn(t[i], k);
    }
  }

  // The first entry of k, at position j, taken out of a chain.
  lemma {:induction false} WithoutFirst<K, V>(c: Chain<K, V>, j: nat, k: K)
    requires j < |c| && c[j].k == k && forall x :: 0 <= x < j ==> c[x].k != k
    ensures ValuesIn(c, k) == [c[j].v] + ValuesIn(c[..j] + c[j + 1..], k)
    decreases j
  {
    var d := c[..j] + c[j + 1..];
    if j == 0 {
      assert d == c[1..];
    } else {
      WithoutFirst(c[1..], j - 1, k);
      assert d[1..] == c[1..][..j - 1] + c[1..][j..];
      assert d[0] == c[0];
    }
  }

  lemma {:induction false} WithoutOther<K, V>(c: Chain<K, V>, j: nat, k: K)
    requires j < |c| && c[j].k != k
    ensures ValuesIn(c[..j] + c[j + 1..], k) == ValuesIn(c, k)
    decreases j
  {
    var d := c[..j] + c[j + 1..];
    if j == 0 {
      assert d == c[1..];
    } else {
      WithoutOther(c[1..], j - 1, k);
      assert d[1..] == c[1..][..j - 1] + c[1..][j..];
      assert d[0] == c[0];
    }
  }

  // The first entry of its key taken out of chain i.
  lemma Unlink<K(!new), V(!new)>(hash: K -> nat, t: Table<K, V>, i: nat, j: nat, t': Table<K, V>)
    requires Placed(hash, t) && i < |t| && j < |t[i]| && forall x :: 0 <= x < j ==> t[i][x].k != t[i][j].k
    requires t' == t[i := t[i][..j] + t[i][j + 1..]]
    ensures Placed(hash, t') && ValuesOf(hash, t, t[i][j].k) == [t[i][j].v] + ValuesOf(hash, t', t[i][j].k)
    ensures forall k :: k != t[i][j].k ==> ValuesOf(hash, t', k) == ValuesOf(hash, t, k)
  {
    assert t[i][j] in t[i];
    WithoutFirst(t[i], j, t[i][j].k);
    forall k | k != t[i][j].k ensures ValuesOf(hash, t', k) == ValuesOf(hash, t, k) {
      WithoutOther(t[i], j, k);
    }
  }

  /* ---------- rebuilding the table ---------- */

  function Reversed<T>(s: seq<T>): seq<T> {
    if s == [] then [] else Reversed(s[1..]) + [s[0]]
  }

  // While entries are moved from t to u: the values of each key still in t, reversed, in front
  // of those in u.
  ghost predicate MovedAt<K(!new), V(!new)>(hash: K -> nat, t0: Table<K, V>, t: Table<K, V>, u: Table<K, V>, k: K)
    requires |t0| > 0 && |t| > 0 && |u| > 0
  {
    Reversed(ValuesOf(hash, t, k)) + ValuesOf(hash, u, k) == Reversed(ValuesOf(hash, t0, k))
  }

  ghost predicate Moving<K(!new), V(!new)>(hash: K -> nat, t0: Table<K, V>, t: Table<K, V>, u: Table<K, V>) {
    && |t0| > 0 && Placed(hash, t) && Placed(hash, u)
    && forall k :: MovedAt(hash, t0, t, u, k)
  }

  lemma ReverseMoves<T>(all: seq<T>, s: seq<T>, x: T, rest: seq<T>, u: seq<T>)
    requires s == [x] + rest && Reversed(s) + u == all
    ensures Reversed(rest) + ([x] + u) == all
  {
    assert s[1..] == rest;
    assert Reversed(rest) + ([x] + u) == (Reversed(rest) + [x]) + u;
  }

  // The front entry of chain i of t moved to its place in u.
  lemma EntryMoved<K(!new), V(!new)>(hash: K -> nat, t0: Table<K, V>, t: Table<K, V>, u: Table<K, V>, i: nat,
                                     t': Table<K, V>, u': Table<K, V>)
    requires Moving(hash, t0, t, u) && i < |t| && t[i] != [] && t' == t[i := t[i][1..]]
    requires u' == u[IndexFor(|u|, t[i][0].h) := [t[i][0]] + u[IndexFor(|u|, t[i][0].h)]]
    ensures Moving(hash, t0, t', u')
  {
    var e := t[i][0];
    assert e in t[i] && t[i][..0] + t[i][1..] == t[i][1..];
    Unlink(hash, t, i, 0, t');
    LinkFront(hash, u, e, u');
    forall k ensures MovedAt(hash, t0, t', u', k) {
      assert MovedAt(hash, t0, t, u, k);
      if k == e.k {
        ReverseMoves(Reversed(ValuesOf(hash, t0, k)), ValuesOf(hash, t, k), e.v, ValuesOf(hash, t', k), ValuesOf(hash, u, k));
      }
    }
  }

  lemma NothingMoved<K(!new), V(!new)>(hash: K -> nat, t: Table<K, V>, u: Table<K, V>)
    requires Placed(hash, t) && |u| > 0 && forall i :: 0 <= i < |u| ==> |u[i]| == 0
    ensures Moving(hash, t, t, u)
  {
    forall k ensures MovedAt(hash, t, t, u, k) {
      assert Reversed(ValuesOf(hash, t, k)) + [] == Reversed(ValuesOf(hash, t, k));
    }
  }

  lemma AllMoved<K(!new), V(!new)>(hash: K -> nat, t0: Table<K, V>, t: Table<K, V>, u: Table<K, V>)
    requires Moving(hash, t0, t, u) && forall i :: 0 <= i < |t| ==> |t[i]| == 0
    ensures forall k :: ValuesOf(hash, u, k) == Reversed(ValuesOf(hash, t0, k))
  {
    forall k ensures ValuesOf(hash, u, k) == Reversed(ValuesOf(hash, t0, k)) {
      assert MovedAt(hash, t0, t, u, k);
      assert [] + ValuesOf(hash, u, k) == ValuesOf(hash, u, k);
    }
  }

  // The sizes a table may have.
  const PRIMES: seq<nat> := [
    53, 97, 193, 389, 769, 1543, 3079, 6151, 12289, 24593, 49157, 98317, 196613, 393241, 786433, 1572869, 3145739,
    6291469, 12582917, 25165843, 50331653, 100663319, 201326611, 402653189, 805306457, 1610612741]

  const MAX_MINSIZE: nat := 0x4000_0000

  // What rehashing does to the values of a key.
  function Turned<T>(grown: bool, s: seq<T>): seq<T> {
    if grown then Reversed(s) else s
  }

  /** Distinct locks guard distinct buckets, and every operation on a key stays in the bucket
      its lock guards. */
  class Hashtable<K(==, !new), V(!new)> {
    const hash: K -> nat
    // whether ENABLE_DYNAMIC_EXPANSION is set, and the load limit of a size
    const dynamic: bool
    const limit: nat -> nat
    var table: array<Chain<K, V>>
    var entrycount: int
    var loadlimit: nat
    var primeindex: nat

    ghost predicate Valid()
      reads this, table
    {
      Placed(hash, table[..]) && primeindex < |PRIMES|
    }

    // The values of a key, newest first.
    ghost function Values(k: K): seq<V>
      requires Valid()
      reads this, table
    {
      ValuesOf(hash, table[..], k)
    }

    // hashtable_create, once the index of the size is known
    constructor (hash: K -> nat, dynamic: bool, limit: nat -> nat, pindex: nat)
      requires pindex < |PRIMES|
      ensures Valid() && table.Length == PRIMES[pindex] && fresh(table)
      ensures this.hash == hash && this.dynamic == dynamic && this.limit == limit
      ensures primeindex == pindex && entrycount == 0 && loadlimit == limit(PRIMES[pindex])
      ensures forall k :: |Values(k)| == 0
    {
      this.hash, this.dynamic, this.limit := hash, dynamic, limit;
      table := new Chain<K, V>[PRIMES[pindex]](_ => []);
      entrycount, primeindex, loadlimit := 0, pindex, limit(PRIMES[pindex]);
    }

    /** The first size above minsize; nothing when minsize is too large. */
    static method SizeIndex(minsize: nat) returns (pindex: Option<nat>)
      ensures pindex == None <==> minsize > MAX_MINSIZE
      ensures pindex.Some? ==> pindex.value < |PRIMES| && PRIMES[pindex.value] > minsize
      ensures pindex.Some? ==> forall i :: 0 <= i < pindex.value ==> PRIMES[i] <= minsize
    {
      if minsize > MAX_MINSIZE { return None; }
      var i := 0;
      assert PRIMES[|PRIMES| - 1] > minsize;
      while PRIMES[i] <= minsize
        invariant 0 <= i < |PRIMES| && forall j :: 0 <= j < i ==> PRIMES[j] <= minsize
        decreases |PRIMES| - i
      {
        i := i + 1;
      }
      return Some(i);
    }

    // hashtable_getlock: the index of the lock
    function GetLock(k: K): nat
      reads this
      requires table.Length > 0
    {
      IndexFor(table.Length, hash(k))
    }

    method Search(k: K) returns (v: Option<V>)
      requires Valid()
      ensures v == Newest(Values(k))
    {
      var h := hash(k);
      var chain := table[IndexFor(table.Length, h)];
      SearchIs(hash, table[..], k);
      ghost var found := Find(chain, h, k);
      while chain != []
        invariant Find(chain, h, k) == found
        decreases |chain|
      {
        if h == chain[0].h && k == chain[0].k {
          return Some(chain[0].v);
        }
        chain := chain[1..];
      }
      return None;
    }

    // The next size, if there is one.
    method Grow() returns (grown: bool)
      requires Valid()
      modifies this`table, this`primeindex, this`loadlimit, table
      ensures Valid() && grown == (old(primeindex) + 1 < |PRIMES|)
      ensures if grown then fresh(table) else table == old(table) && table[..] == old(table[..])
      ensures grown ==> primeindex == old(primeindex) + 1 && table.Length == PRIMES[primeindex]
      ensures grown ==> loadlimit == limit(table.Length)
      ensures !grown ==> primeindex == old(primeindex) && loadlimit == old(loadlimit)
      ensures forall x :: Values(x) == Turned(grown, old(Values(x)))
    {
      if primeindex == |PRIMES| - 1 {
        return false;
      }
      primeindex := primeindex + 1;
      Expand(PRIMES[primeindex]);
      loadlimit := limit(table.Length);
      return true;
    }

    // The new entry, in front of its chain.
    method Link(k: K, v: V)
      requires Valid()
      modifies table
      ensures Valid() && Values(k) == [v] + old(Values(k))
      ensures forall x :: x != k ==> Values(x) == old(Values(x))
      ensures forall i :: 0 <= i < table.Length && i != GetLock(k) ==> table[i] == old(table[i])
    {
      var e := Entry(hash(k), k, v);
      var index := IndexFor(table.Length, e.h);
      ghost var t := table[..];
      table[index] := [e] + table[index];
      LinkFront(hash, t, e, table[..]);
    }

    method Insert(k: K, v: V)
      requires Valid()
      modifies this`table, this`entrycount, this`primeindex, this`loadlimit, table
      ensures var grows := dynamic && old(entrycount) + 1 > old(loadlimit) && old(primeindex) + 1 < |PRIMES|;
        && Valid() && Values(k) == [v] + Turned(grows, old(Values(k)))
        && (forall x :: x != k ==> Values(x) == Turned(grows, old(Values(x))))
        && (if grows then fresh(table) && primeindex == old(primeindex) + 1 && table.Length == PRIMES[primeindex]
            else table == old(table) && primeindex == old(primeindex))
        && (!grows ==> forall i :: 0 <= i < table.Length && i != GetLock(k) ==> table[i] == old(table[i]))
        && loadlimit == if grows then limit(table.Length) else old(loadlimit)
      ensures entrycount == if dynamic then old(entrycount) + 1 else old(entrycount)
    {
      if dynamic {
        entrycount := entrycount + 1;
        if entrycount > loadlimit {
          var grown := Grow();
        }
      }
      Link(k, v);
    }

    method Remove(k: K) returns (v: Option<V>)
      requires Valid()
      modifies this`entrycount, table
      ensures entrycount == if dynamic && v.Some? then old(entrycount) - 1 else old(entrycount)
      ensures Valid() && v == Newest(old(Values(k)))
      ensures Values(k) == if old(Values(k)) == [] then [] else old(Values(k))[1..]
      ensures forall x :: x != k ==> Values(x) == old(Values(x))
      ensures forall i :: 0 <= i < table.Length && i != GetLock(k) ==> table[i] == old(table[i])
    {
      var h := hash(k);
      var index := IndexFor(table.Length, h);
      ghost var t := table[..];
      SearchIs(hash, t, k);
      var chain, j := table[index], 0;
      while j < |chain|
        invariant j <= |chain| && Find(chain[j..], h, k) == Find(chain, h, k)
        invariant forall x :: 0 <= x < j ==> chain[x].k != k
      {
        assert chain[j] in t[index];
        if h == chain[j].h && k == chain[j].k {
          table[index] := chain[..j] + chain[j + 1..];
          Unlink(hash, t, index, j, table[..]);
          if dynamic { entrycount := entrycount - 1; }
          return Some(chain[j].v);
        }
        j := j + 1;
      }
      return None;
    }

    /** hashtable_expand into a new table: each key keeps its values, in reverse order. */
    method Expand(newSize: nat)
      requires Valid() && newSize > 0
      modifies this`table, table
      ensures Valid() && fresh(table) && table.Length == newSize
      ensures forall k :: Values(k) == Reversed(old(Values(k)))
    {
      var newTable := new Chain<K, V>[newSize](_ => []);
      ghost var t0 := table[..];
      NothingMoved(hash, t0, newTable[..]);
      var i := 0;
      while i < table.Length
        invariant i <= table.Length && table == old(table)
        invariant Moving(hash, t0, table[..], newTable[..])
        invariant forall j :: 0 <= j < i ==> |table[j]| == 0
      {
        EmptyChain(i, newTable, t0);
        i := i + 1;
      }
      AllMoved(hash, t0, table[..], newTable[..]);
      table := newTable;
    }

    // The inner loop of hashtable_expand.
    method EmptyChain(i: nat, newTable: array<Chain<K, V>>, ghost t0: Table<K, V>)
      requires i < table.Length && newTable != table && Moving(hash, t0, table[..], newTable[..])
      modifies table, newTable
      ensures Moving(hash, t0, table[..], newTable[..])
      ensures |table[i]| == 0 && forall j :: 0 <= j < table.Length && j != i ==> table[j] == old(table[j])
    {
      while table[i] != []
        invariant Moving(hash, t0, table[..], newTable[..])
        invariant forall j :: 0 <= j < table.Length && j != i ==> table[j] == old(table[j])
        decreases |table[i]|
      {
        MoveEntry(i, newTable, t0);
      }
    }

    // One turn of the inner loop.
    method MoveEntry(i: nat, newTable: array<Chain<K, V>>, ghost t0: Table<K, V>)
      requires i < table.Length && table[i] != [] && newTable != table
      requires Moving(hash, t0, table[..], newTable[..])
      modifies table, newTable
      ensures Moving(hash, t0, table[..], newTable[..])
      ensures table[i] == old(table[i])[1..] && forall j :: 0 <= j < table.Length && j != i ==> table[j] == old(table[j])
    {
      ghost var t, u := table[..], newTable[..];
      var e := table[i][0];
      table[i] := table[i][1..];
      var index := IndexFor(newTable.Length, e.h);
      newTable[index] := [e] + newTable[index];
      assert table[..] == t[i := t[i][1..]] && newTable[..] == u[index := [e] + u[index]];
      EntryMoved(hash, t0, t, u, i, table[..], newTable[..]);
    }
  }
}
