/** What a chain of function segments computes (include/pipeline.h): stage k maps each of its
    values to any number of values. */
module Stages {

  function FlatMap<V>(f: V -> seq<V>, s: seq<V>): seq<V> {
    if s == [] then [] else f(s[0]) + FlatMap(f, s[1..])
  }

  // Stages k, k + 1, ... applied to s.
  function From<V>(fs: seq<V -> seq<V>>, k: nat, s: seq<V>): seq<V>
    requires k <= |fs|
    decreases |fs| - k
  {
    if k == |fs| then s else From(fs, k + 1, FlatMap(fs[k], s))
  }

  // The number of pops and pushes that values waiting in front of stage k still cause.
  function Work<V>(fs: seq<V -> seq<V>>, k: nat, s: seq<V>): nat
    requires k <= |fs|
    decreases |fs| - k
  {
    if k == |fs| then |s| else
      var t := FlatMap(fs[k], s);
      |s| + |t| + Work(fs, k + 1, t)
  }

  lemma {:induction false} FlatMapAppend<V>(f: V -> seq<V>, s: seq<V>, t: seq<V>)
    ensures FlatMap(f, s + t) == FlatMap(f, s) + FlatMap(f, t)
  {
    if s == [] {
      assert s + t == t;
    } else {
      FlatMapAppend(f, s[1..], t);
      assert (s + t)[1..] == s[1..] + t;
    }
  }

  lemma {:induction false} FromAppend<V>(fs: seq<V -> seq<V>>, k: nat, s: seq<V>, t: seq<V>)
    requires k <= |fs|
    ensures From(fs, k, s + t) == From(fs, k, s) + From(fs, k, t)
    ensures Work(fs, k, s + t) == Work(fs, k, s) + Work(fs, k, t)
    decreases |fs| - k
  {
    if k < |fs| {
      FlatMapAppend(fs[k], s, t);
      FromAppend(fs, k + 1, FlatMap(fs[k], s), FlatMap(fs[k], t));
    }
  }

  lemma {:induction false} FromNothing<V>(fs: seq<V -> seq<V>>, k: nat)
    requires k <= |fs|
    ensures From(fs, k, []) == [] && Work(fs, k, []) == 0
    decreases |fs| - k
  {
    if k < |fs| {
      FromNothing(fs, k + 1);
    }
  }

  // The first value of a queue, and the rest.
  lemma FromHead<V>(fs: seq<V -> seq<V>>, k: nat, s: seq<V>)
    requires k < |fs| && s != []
    ensures From(fs, k, s) == From(fs, k + 1, fs[k](s[0])) + From(fs, k, s[1..])
    ensures Work(fs, k, s) == 1 + |fs[k](s[0])| + Work(fs, k + 1, fs[k](s[0])) + Work(fs, k, s[1..])
  {
    var head := fs[k](s[0]);
    assert s == [s[0]] + s[1..];
    FromAppend(fs, k, [s[0]], s[1..]);
    assert FlatMap(fs[k], [s[0]]) == head + FlatMap(fs[k], []) == head;
  }

  function Identity<V>(): V -> seq<V> {
    x => [x]
  }

  /** A queue source that copies into its own queue changes nothing. */
  lemma {:induction false} IdentityStage<V>(fs: seq<V -> seq<V>>, k: nat, s: seq<V>)
    requires k <= |fs|
    ensures From([Identity<V>()] + fs, k + 1, s) == From(fs, k, s)
    decreases |fs| - k
  {
    if k < |fs| {
      IdentityStage(fs, k + 1, FlatMap(fs[k], s));
    }
  }

  lemma {:induction false} FlatMapIdentity<V>(s: seq<V>)
    ensures FlatMap(Identity<V>(), s) == s
  {
    if s != [] {
      FlatMapIdentity(s[1..]);
    }
  }

  lemma FusedSame<V>(fs: seq<V -> seq<V>>, s: seq<V>)
    ensures From([Identity<V>()] + fs, 0, s) == From(fs, 0, s)
  {
    FlatMapIdentity(s);
    IdentityStage(fs, 0, s);
  }
}
