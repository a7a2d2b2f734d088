/** Polynomials over GF(2) as sets of exponents, and what the words of samples/dedup/rabin.c are
    among them: remainders modulo X^32 + irrpoly.  Nothing here uses the code's way of reducing. */
module Gf2Polynomials {
  import opened Gf2
  import opened PolyWords

  // The exponents with coefficient 1.
  type Polynomial = set<nat>

  function Plus(a: Polynomial, b: Polynomial): Polynomial {
    (a - b) + (b - a)
  }

  // a * X^k
  function Shift(a: Polynomial, k: nat): Polynomial {
    set e | e in a :: e + k
  }

  // m * (X^q[0] + X^q[1] + ...)
  function Product(m: Polynomial, q: seq<nat>): Polynomial {
    if q == [] then {} else Plus(Shift(m, q[0]), Product(m, q[1..]))
  }

  // a and b leave the same remainder modulo m.
  ghost predicate Congruent(a: Polynomial, b: Polynomial, m: Polynomial) {
    exists q :: Plus(a, b) == Product(m, q)
  }

  /* ---------- sums, shifts and congruence ---------- */

  lemma PlusLaws(a: Polynomial, b: Polynomial, c: Polynomial)
    ensures Plus(a, b) == Plus(b, a) && Plus(Plus(a, b), c) == Plus(a, Plus(b, c))
    ensures Plus(a, {}) == a && Plus({}, a) == a && Plus(a, a) == {}
  {
  }

  lemma ShiftLaws(a: Polynomial, b: Polynomial, j: nat, k: nat)
    ensures Shift(Plus(a, b), k) == Plus(Shift(a, k), Shift(b, k))
    ensures Shift(Shift(a, j), k) == Shift(a, j + k) && Shift(a, 0) == a
  {
    forall e ensures e in Shift(Plus(a, b), k) <==> e in Plus(Shift(a, k), Shift(b, k)) {
      if e in Shift(a, k) { assert e - k in a; }
      if e in Shift(b, k) { assert e - k in b; }
      if e >= k && (e - k in a || e - k in b) { assert (e - k) + k == e; }
    }
    forall e ensures e in Shift(Shift(a, j), k) <==> e in Shift(a, j + k) {
      if e in Shift(a, j + k) {
        var d :| d in a && e == d + (j + k);
        assert d + j in Shift(a, j) && e == (d + j) + k;
      }
    }
  }

  lemma {:induction false} ProductAppend(m: Polynomial, p: seq<nat>, q: seq<nat>)
    ensures Product(m, p + q) == Plus(Product(m, p), Product(m, q))
  {
    if p == [] {
      assert p + q == q;
    } else {
      ProductAppend(m, p[1..], q);
      assert (p + q)[1..] == p[1..] + q;
      PlusLaws(Shift(m, p[0]), Product(m, p[1..]), Product(m, q));
    }
  }

  function Raised(q: seq<nat>, k: nat): seq<nat> {
    if q == [] then [] else [q[0] + k] + Raised(q[1..], k)
  }

  lemma {:induction false} ProductShift(m: Polynomial, q: seq<nat>, k: nat)
    ensures Product(m, Raised(q, k)) == Shift(Product(m, q), k)
  {
    if q != [] {
      ProductShift(m, q[1..], k);
      ShiftLaws(m, {}, q[0], k);
      ShiftLaws(Shift(m, q[0]), Product(m, q[1..]), 0, k);
      assert Raised(q, k)[1..] == Raised(q[1..], k);
    }
  }

  lemma CongruentSame(a: Polynomial, m: Polynomial)
    ensures Congruent(a, a, m)
  {
    PlusLaws(a, a, a);
    assert Plus(a, a) == Product(m, []);
  }

  lemma CongruentPlus(a: Polynomial, b: Polynomial, c: Polynomial, d: Polynomial, m: Polynomial)
    requires Congruent(a, b, m) && Congruent(c, d, m)
    ensures Congruent(Plus(a, c), Plus(b, d), m)
  {
    var p :| Plus(a, b) == Product(m, p);
    var q :| Plus(c, d) == Product(m, q);
    ProductAppend(m, p, q);
    assert Plus(Plus(a, c), Plus(b, d)) == Product(m, p + q);
  }

  lemma CongruentThen(a: Polynomial, b: Polynomial, c: Polynomial, m: Polynomial)
    requires Congruent(a, b, m) && Congruent(b, c, m)
    ensures Congruent(a, c, m)
  {
    var p :| Plus(a, b) == Product(m, p);
    var q :| Plus(b, c) == Product(m, q);
    ProductAppend(m, p, q);
    assert Plus(a, c) == Product(m, p + q);
  }

  lemma CongruentShift(a: Polynomial, b: Polynomial, k: nat, m: Polynomial)
    requires Congruent(a, b, m)
    ensures Congruent(Shift(a, k), Shift(b, k), m)
  {
    var q :| Plus(a, b) == Product(m, q);
    ShiftLaws(a, b, 0, k);
    ProductShift(m, q, k);
    assert Plus(Shift(a, k), Shift(b, k)) == Product(m, Raised(q, k));
  }

  /* ---------- words ---------- */

  // The first n coefficients of a word, read from the top, as those of X^(n-1) down to X^0.
  function Coefficients<W>(p: Poly<W>, w: W, n: nat): Polynomial {
    if n == 0 then {} else
      (if p.top(w) then {n - 1} else {}) + Coefficients(p, p.shl(w), n - 1)
  }

  // A word as a polynomial: bit k is the coefficient of X^k.
  function Exponents<W>(p: Poly<W>, w: W): (e: Polynomial)
  {
    Coefficients(p, w, WORD)
  }

  function ShlN<W>(p: Poly<W>, w: W, n: nat): W {
    if n == 0 then w else ShlN(p, p.shl(w), n - 1)
  }

  // A word has no more than WORD coefficients.
  ghost predicate Nilpotent<W(!new)>(p: Poly<W>) {
    forall w :: NilpotentAt(p, w)
  }

  ghost predicate NilpotentAt<W>(p: Poly<W>, w: W) {
    !p.top(ShlN(p, w, WORD))
  }

  lemma {:induction false} CoefficientsBelow<W>(p: Poly<W>, w: W, n: nat)
    ensures forall e :: e in Coefficients(p, w, n) ==> e < n
  {
    if n > 0 { CoefficientsBelow(p, p.shl(w), n - 1); }
  }

  lemma {:induction false} CoefficientsPlus<W(!new)>(p: Poly<W>, a: W, b: W, n: nat)
    requires Lawful(p)
    ensures Coefficients(p, p.add(a, b), n) == Plus(Coefficients(p, a, n), Coefficients(p, b, n))
    decreases n
  {
    if n > 0 {
      assert LinearAt(p, a, b);
      CoefficientsPlus(p, p.shl(a), p.shl(b), n - 1);
      CoefficientsBelow(p, p.shl(a), n - 1);
      CoefficientsBelow(p, p.shl(b), n - 1);
    }
  }

  // One more coefficient moves the others up.
  lemma {:induction false} OneMore<W>(p: Poly<W>, w: W, n: nat)
    ensures Coefficients(p, w, n + 1) == Shift(Coefficients(p, w, n), 1) + if p.top(ShlN(p, w, n)) then {0} else {}
    decreases n
  {
    if n == 0 {
      assert Coefficients(p, p.shl(w), 0) == {};
    } else {
      OneMore(p, p.shl(w), n - 1);
      Leading(p.top(w), n - 1, Coefficients(p, p.shl(w), n - 1));
    }
  }

  lemma Leading(top: bool, n: nat, rest: Polynomial)
    ensures Shift((if top then {n} else {}) + rest, 1) == (if top then {n + 1} else {}) + Shift(rest, 1)
  {
    var a := (if top then {n} else {}) + rest;
    forall e ensures e in Shift(a, 1) <==> e in (if top then {n + 1} else {}) + Shift(rest, 1) {
      if e in Shift(rest, 1) { assert e - 1 in a; }
      if top && e == n + 1 { assert n in a; }
    }
  }

  // The word after a shift: multiplied by X, without the leading term.
  lemma ShlIs<W(!new)>(p: Poly<W>, w: W)
    requires Nilpotent(p)
    ensures Exponents(p, p.shl(w)) == Plus(Shift(Exponents(p, w), 1), if p.top(w) then {WORD} else {})
  {
    assert NilpotentAt(p, w);
    OneMore(p, p.shl(w), WORD - 1);
    CoefficientsBelow(p, p.shl(w), WORD - 1);
    Leading(p.top(w), WORD - 1, Coefficients(p, p.shl(w), WORD - 1));
  }

  /* ---------- the operations on words are those of remainders ---------- */

  // X^WORD + irr
  function Modulus<W>(p: Poly<W>): Polynomial {
    Plus(Exponents(p, p.irr), {WORD})
  }

  lemma TimesXCongruent<W(!new)>(p: Poly<W>, w: W)
    requires Lawful(p) && Nilpotent(p)
    ensures Congruent(Exponents(p, TimesX(p, w)), Shift(Exponents(p, w), 1), Modulus(p))
  {
    var a, m := Shift(Exponents(p, w), 1), Modulus(p);
    ShlIs(p, w);
    PlusLaws(a, {}, {});
    if p.top(w) {
      CoefficientsPlus(p, p.shl(w), p.irr, WORD);
      assert Plus(Plus(Plus(a, {WORD}), Exponents(p, p.irr)), a) == m;
      ProductOne(m);
    } else {
      CongruentSame(a, m);
    }
  }

  lemma ProductOne(m: Polynomial)
    ensures Product(m, [0]) == m
  {
    PlusLaws(m, {}, {});
    ShiftLaws(m, {}, 0, 0);
    assert Product(m, [0]) == Plus(Shift(m, 0), Product(m, []));
  }

  /** Times multiplies by a power of X, modulo X^WORD + irr. */
  lemma {:induction false} TimesCongruent<W(!new)>(p: Poly<W>, w: W, k: nat)
    requires Lawful(p) && Nilpotent(p)
    ensures Congruent(Exponents(p, Times(p, w, k)), Shift(Exponents(p, w), k), Modulus(p))
    decreases k
  {
    var m := Modulus(p);
    if k == 0 {
      ShiftLaws(Exponents(p, w), {}, 0, 0);
      CongruentSame(Exponents(p, w), m);
    } else {
      var v := Times(p, w, k - 1);
      TimesCongruent(p, w, k - 1);
      CongruentShift(Exponents(p, v), Shift(Exponents(p, w), k - 1), 1, m);
      ShiftLaws(Exponents(p, w), {}, k - 1, 1);
      TimesXCongruent(p, v);
      CongruentThen(Exponents(p, TimesX(p, v)), Shift(Exponents(p, v), 1), Shift(Exponents(p, w), k), m);
    }
  }

  // The bytes of s as one polynomial, the last byte lowest.
  function BytePolynomial<W>(p: Poly<W>, s: seq<bv8>): Polynomial {
    if s == [] then {} else
      var n := |s| - 1;
      Plus(Shift(BytePolynomial(p, s[..n]), 8), Exponents(p, p.of(s[n])))
  }

  // One more byte: h is congruent to a, g is h times X^8, r the hash with byte x.
  lemma AppendCongruent<W(!new)>(p: Poly<W>, h: W, a: Polynomial, x: W)
    requires Lawful(p) && Nilpotent(p) && Congruent(Exponents(p, h), a, Modulus(p))
    ensures Congruent(Exponents(p, p.add(Times(p, h, BYTE), x)), Plus(Shift(a, 8), Exponents(p, x)), Modulus(p))
  {
    var g, e, m := Exponents(p, Times(p, h, BYTE)), Exponents(p, x), Modulus(p);
    CongruentShift(Exponents(p, h), a, 8, m);
    TimesCongruent(p, h, BYTE);
    CongruentThen(g, Shift(Exponents(p, h), 8), Shift(a, 8), m);
    CongruentSame(e, m);
    CongruentPlus(g, Shift(a, 8), e, e, m);
    CoefficientsPlus(p, Times(p, h, BYTE), x, WORD);
  }

  lemma {:induction false} HashCongruent<W(!new)>(p: Poly<W>, s: seq<bv8>)
    requires Lawful(p) && Nilpotent(p)
    ensures Congruent(Exponents(p, Hash(p, s)), BytePolynomial(p, s), Modulus(p))
  {
    if s == [] {
      ZeroExponents(p);
      CongruentSame({}, Modulus(p));
    } else {
      var n := |s| - 1;
      HashCongruent(p, s[..n]);
      AppendCongruent(p, Hash(p, s[..n]), BytePolynomial(p, s[..n]), p.of(s[n]));
    }
  }

  lemma ZeroExponents<W(!new)>(p: Poly<W>)
    requires Lawful(p)
    ensures Exponents(p, p.zero) == {}
  {
    assert GroupAt(p, p.zero, p.zero, p.zero);
    CoefficientsPlus(p, p.zero, p.zero, WORD);
    PlusLaws(Exponents(p, p.zero), {}, {});
  }

  /* ---------- the words of the code ---------- */

  lemma ShlStep(x: bv32, y: bv32, k: nat)
    requires y == x << 1
    ensures ShlN(P, x, k + 1) == ShlN(P, y, k)
  {
  }

  lemma ShlEight(x: bv32, x8: bv32, k: nat)
    requires x8 == x << 8
    ensures ShlN(P, x, k + 8) == ShlN(P, x8, k)
  {
    var x1 := x << 1;
    var x2 := x1 << 1;
    var x3 := x2 << 1;
    var x4 := x3 << 1;
    var x5 := x4 << 1;
    var x6 := x5 << 1;
    var x7 := x6 << 1;
    EightBits(x, x1, x2, x3, x4, x5, x6, x7, x8);
    ShlStep(x, x1, k + 7);
    ShlStep(x1, x2, k + 6);
    ShlStep(x2, x3, k + 5);
    ShlStep(x3, x4, k + 4);
    ShlStep(x4, x5, k + 3);
    ShlStep(x5, x6, k + 2);
    ShlStep(x6, x7, k + 1);
    ShlStep(x7, x8, k);
  }

  lemma EightBits(w: bv32, w1: bv32, w2: bv32, w3: bv32, w4: bv32, w5: bv32, w6: bv32, w7: bv32, v: bv32)
    requires w1 == w << 1 && w2 == w1 << 1 && w3 == w2 << 1 && w4 == w3 << 1
    requires w5 == w4 << 1 && w6 == w5 << 1 && w7 == w6 << 1 && v == w << 8
    ensures v == w7 << 1
  {
  }

  lemma PNilpotentAt(w: bv32)
    ensures NilpotentAt(P, w)
  {
    var w1 := w << 8;
    var w2 := w1 << 8;
    var w3 := w2 << 8;
    var w4 := w3 << 8;
    NothingLeft(w, w1, w2, w3, w4);
    ShlAll(w, w1, w2, w3, w4);
    Shifted32(w, w4);
  }

  lemma ShlAll(w: bv32, w1: bv32, w2: bv32, w3: bv32, w4: bv32)
    requires w1 == w << 8 && w2 == w1 << 8 && w3 == w2 << 8 && w4 == w3 << 8
    ensures ShlN(P, w, 32) == ShlN(P, w4, 0)
  {
    ShlEight(w, w1, 24);
    ShlEight(w1, w2, 16);
    ShlEight(w2, w3, 8);
    ShlEight(w3, w4, 0);
  }

  lemma Shifted32(w: bv32, v: bv32)
    requires ShlN(P, w, 32) == ShlN(P, v, 0) && v >> 31 == 0
    ensures NilpotentAt(P, w)
  {
  }

  lemma NothingLeft(w: bv32, w1: bv32, w2: bv32, w3: bv32, w4: bv32)
    requires w1 == w << 8 && w2 == w1 << 8 && w3 == w2 << 8 && w4 == w3 << 8
    ensures w4 >> 31 == 0
  {
  }

  lemma PNilpotent()
    ensures Nilpotent(P)
  {
    forall w: bv32 ensures NilpotentAt(P, w) { PNilpotentAt(w); }
  }

  // The polynomial of the code: X^32 and the terms of irrpoly.
  lemma ModulusIs()
    ensures Modulus(P) == Plus({32}, Exponents(P, 0x45c2b6a1))
  {
    PlusLaws({32}, Exponents(P, P.irr), {});
  }

  /** The hash of a byte string is its remainder modulo the polynomial of the code. */
  lemma HashIsRemainder(s: seq<bv8>)
    ensures Congruent(Exponents(P, Hash(P, s)), BytePolynomial(P, s), Plus({32}, Exponents(P, 0x45c2b6a1)))
    ensures forall e :: e in Exponents(P, Hash(P, s)) ==> e < 32
  {
    ModulusIs();
    PLawful();
    PNilpotent();
    HashCongruent(P, s);
    CoefficientsBelow(P, Hash(P, s), 32);
  }
}
