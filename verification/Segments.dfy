/** Cutting a sequence at the first prefix that satisfies a predicate. */
module Segments {

  // The length of the shortest matching prefix of at least i elements, or of everything.
  function First<T>(m: seq<T> -> bool, p: seq<T>, i: nat): (n: nat)
    requires i <= |p|
    ensures i <= n <= |p|
    ensures n < |p| ==> m(p[..n])
    ensures forall j :: i <= j < n ==> !m(p[..j])
    decreases |p| - i
  {
    if i == |p| || m(p[..i]) then i else First(m, p, i + 1)
  }

  function Seg<T>(m: seq<T> -> bool, p: seq<T>): (n: nat)
    ensures n <= |p|
  {
    First(m, p, 0)
  }

  /** What follows a segment end does not move it. */
  lemma {:induction false} FirstExtends<T>(m: seq<T> -> bool, p: seq<T>, q: seq<T>, i: nat)
    requires i <= |p| && First(m, p, i) < |p|
    ensures First(m, p + q, i) == First(m, p, i)
    decreases |p| - i
  {
    assert (p + q)[..i] == p[..i];
    if !m(p[..i]) {
      FirstExtends(m, p, q, i + 1);
    }
  }

  /** Where no end was found, none appears when more follows. */
  lemma FirstGrows<T>(m: seq<T> -> bool, p: seq<T>, q: seq<T>, i: nat)
    requires i <= |p|
    ensures First(m, p, i) <= First(m, p + q, i)
  {
    var n := First(m, p + q, i);
    if n < |p| {
      assert (p + q)[..n] == p[..n];
    }
  }

  // n elements, each chosen by those before it.
  function Grown<T>(next: seq<T> -> T, n: nat): (s: seq<T>)
    ensures |s| == n
  {
    if n == 0 then [] else
      var s := Grown(next, n - 1);
      s + [next(s)]
  }

  lemma GrownNext<T>(next: seq<T> -> T, n: nat)
    requires n > 0
    ensures Grown(next, n) == Grown(next, n - 1) + [next(Grown(next, n - 1))]
  {
  }

  lemma {:induction false} GrownPrefix<T>(next: seq<T> -> T, n: nat, k: nat)
    requires k <= n
    ensures Grown(next, n)[..k] == Grown(next, k)
  {
    if k < n {
      GrownPrefix(next, n - 1, k);
    }
  }

  /** Predicates that agree on all prefixes cut at the same place. */
  lemma {:induction false} FirstSame<S, T>(m: seq<S> -> bool, p: seq<S>, l: seq<T> -> bool, q: seq<T>, i: nat)
    requires |p| == |q| && i <= |p|
    requires forall k :: 0 <= k <= |p| ==> m(p[..k]) == l(q[..k])
    ensures First(m, p, i) == First(l, q, i)
    decreases |p| - i
  {
    if i < |p| && !m(p[..i]) {
      FirstSame(m, p, l, q, i + 1);
    }
  }
}
