/** Remainders of polynomials over GF(2), with the word operations as parameters.

    `shl` multiplies by X and drops the coefficient `top` reads, `irr` is the fixed polynomial
    without its leading term, `add` is the sum, `of` a byte as a polynomial of degree below 8. */
module Gf2 {
  const BYTE: nat := 8
  const WORD: nat := 32

  datatype Poly<!W> = Poly(zero: W, add: (W, W) -> W, shl: W -> W, top: W -> bool, irr: W, of: bv8 -> W)

  // The laws at particular elements, so that a proof can name the instances it needs.
  ghost predicate GroupAt<W>(p: Poly<W>, a: W, b: W, c: W) {
    && p.add(a, b) == p.add(b, a)
    && p.add(p.add(a, b), c) == p.add(a, p.add(b, c))
    && p.add(a, p.zero) == a
    && p.add(a, a) == p.zero
  }

  ghost predicate LinearAt<W>(p: Poly<W>, a: W, b: W) {
    && p.shl(p.add(a, b)) == p.add(p.shl(a), p.shl(b))
    && p.top(p.add(a, b)) == (p.top(a) != p.top(b))
  }

  ghost predicate Lawful<W(!new)>(p: Poly<W>) {
    && (forall a, b, c :: GroupAt(p, a, b, c))
    && (forall a, b :: LinearAt(p, a, b))
  }

  // a * X modulo the polynomial
  function TimesX<W>(p: Poly<W>, a: W): W {
    if p.top(a) then p.add(p.shl(a), p.irr) else p.shl(a)
  }

  // a * X^k
  function Times<W>(p: Poly<W>, a: W, k: nat): W
    decreases k
  {
    if k == 0 then a else TimesX(p, Times(p, a, k - 1))
  }

  // The bytes of s as one polynomial, the last byte lowest.
  function Hash<W>(p: Poly<W>, s: seq<bv8>): W {
    if s == [] then p.zero else p.add(Times(p, Hash(p, s[..|s| - 1]), BYTE), p.of(s[|s| - 1]))
  }

  lemma TimesXLinear<W(!new)>(p: Poly<W>, a: W, b: W)
    requires Lawful(p)
    ensures TimesX(p, p.add(a, b)) == p.add(TimesX(p, a), TimesX(p, b))
  {
    assert LinearAt(p, a, b);
    var x, y, z := p.shl(a), p.shl(b), p.irr;
    assert GroupAt(p, p.add(x, y), z, z) && GroupAt(p, x, y, z);
    assert GroupAt(p, y, z, z) && GroupAt(p, z, z, z);
    assert GroupAt(p, p.add(x, z), y, z) && GroupAt(p, x, z, y) && GroupAt(p, p.add(x, y), p.zero, z);
  }

  /** Multiplication by a power of X is linear. */
  lemma {:induction false} TimesLinear<W(!new)>(p: Poly<W>, a: W, b: W, k: nat)
    requires Lawful(p)
    ensures Times(p, p.add(a, b), k) == p.add(Times(p, a, k), Times(p, b, k))
    decreases k
  {
    if k > 0 {
      TimesLinear(p, a, b, k - 1);
      TimesXLinear(p, Times(p, a, k - 1), Times(p, b, k - 1));
    }
  }

  lemma {:induction false} TimesSum<W>(p: Poly<W>, a: W, j: nat, k: nat)
    ensures Times(p, Times(p, a, j), k) == Times(p, a, j + k)
    decreases k
  {
    if k > 0 {
      TimesSum(p, a, j, k - 1);
    }
  }

  lemma {:induction false} TimesZero<W(!new)>(p: Poly<W>, k: nat)
    requires Lawful(p)
    ensures Times(p, p.zero, k) == p.zero
    decreases k
  {
    if k > 0 {
      TimesZero(p, k - 1);
      TimesXLinear(p, p.zero, p.zero);
      assert GroupAt(p, p.zero, p.zero, p.zero);
      var z := TimesX(p, p.zero);
      assert GroupAt(p, z, z, z);
    }
  }

  /** The leading byte of a hashed string contributes its own multiple, whatever follows. */
  lemma {:induction false} HashCons<W(!new)>(p: Poly<W>, x: bv8, s: seq<bv8>)
    requires Lawful(p)
    ensures Hash(p, [x] + s) == p.add(Times(p, p.of(x), 8 * |s|), Hash(p, s))
  {
    if s == [] {
      TimesZero(p, BYTE);
      assert ([x] + s)[..0] == [];
      assert GroupAt(p, p.of(x), p.zero, p.zero);
    } else {
      var n := |s| - 1;
      HashCons(p, x, s[..n]);
      assert ([x] + s)[..n + 1] == [x] + s[..n];
      TimesLinear(p, Times(p, p.of(x), 8 * n), Hash(p, s[..n]), BYTE);
      TimesSum(p, p.of(x), 8 * n, BYTE);
      assert GroupAt(p, Times(p, p.of(x), 8 * |s|), Times(p, Hash(p, s[..n]), BYTE), p.of(s[n]));
    }
  }

  /** Cancelling the multiple of the oldest byte and shifting a new one in hashes the window
      moved by one byte. */
  lemma Slide<W(!new)>(p: Poly<W>, w: seq<bv8>, b: bv8)
    requires Lawful(p) && |w| > 0
    ensures p.add(Times(p, p.add(Hash(p, w), Times(p, p.of(w[0]), 8 * (|w| - 1))), BYTE), p.of(b))
         == Hash(p, w[1..] + [b])
  {
    var lead := Times(p, p.of(w[0]), 8 * (|w| - 1));
    HashCons(p, w[0], w[1..]);
    assert [w[0]] + w[1..] == w;
    assert (w[1..] + [b])[..|w| - 1] == w[1..];
    assert GroupAt(p, Hash(p, w[1..]), lead, lead) && GroupAt(p, lead, Hash(p, w[1..]), lead);
  }

  /* ---------- rolling ---------- */

  const NWINDOW := 32

  // The power of X that the window table cancels.
  function Span(winlen: int): nat {
    if winlen <= 1 then 0 else 8 * (winlen - 1)
  }

  // The rolling hash after the bytes of s, in which the window table cancels a multiple of
  // the byte that leaves the window.
  function Roll<W>(p: Poly<W>, winlen: int, s: seq<bv8>): W {
    if s == [] then p.zero else
      var n := |s| - 1;
      var h := Roll(p, winlen, s[..n]);
      var kept := if n < NWINDOW then h else p.add(h, Times(p, p.of(s[n - NWINDOW]), Span(winlen)));
      p.add(Times(p, kept, BYTE), p.of(s[n]))
  }

  lemma RollFill<W>(p: Poly<W>, winlen: int, s: seq<bv8>, i: nat)
    requires i < NWINDOW && i < |s|
    ensures Roll(p, winlen, s[..i + 1]) == p.add(Times(p, Roll(p, winlen, s[..i]), BYTE), p.of(s[i]))
  {
    assert s[..i + 1][..i] == s[..i];
  }

  lemma RollSlide<W>(p: Poly<W>, winlen: int, s: seq<bv8>, i: nat)
    requires NWINDOW <= i < |s|
    ensures Roll(p, winlen, s[..i + 1])
         == p.add(Times(p, p.add(Roll(p, winlen, s[..i]), Times(p, p.of(s[i - NWINDOW]), Span(winlen))), BYTE), p.of(s[i]))
  {
    assert s[..i + 1][..i] == s[..i];
  }

  // The hash after s, moved on to make room for one more byte.
  function Moved<W>(p: Poly<W>, winlen: int, s: seq<bv8>): W {
    var h := Roll(p, winlen, s);
    Times(p, if |s| < NWINDOW then h else p.add(h, Times(p, p.of(s[|s| - NWINDOW]), Span(winlen))), BYTE)
  }

  lemma RollNext<W>(p: Poly<W>, winlen: int, s: seq<bv8>, b: bv8)
    ensures Roll(p, winlen, s + [b]) == p.add(Moved(p, winlen, s), p.of(b))
  {
    var n := |s|;
    assert (s + [b])[..n] == s;
  }

  function Window(s: seq<bv8>): seq<bv8> {
    if |s| <= NWINDOW then s else s[|s| - NWINDOW..]
  }

  lemma WindowMoves(s: seq<bv8>, n: nat)
    requires |s| == n + 1
    ensures n < NWINDOW ==> Window(s) == Window(s[..n]) + [s[n]]
    ensures n >= NWINDOW ==> |Window(s[..n])| == NWINDOW && Window(s[..n])[0] == s[n - NWINDOW]
    ensures n >= NWINDOW ==> Window(s) == Window(s[..n])[1..] + [s[n]]
  {
  }

  lemma HashGrows<W>(p: Poly<W>, w: seq<bv8>, b: bv8)
    ensures Hash(p, w + [b]) == p.add(Times(p, Hash(p, w), BYTE), p.of(b))
  {
    assert (w + [b])[..|w|] == w;
  }

  // Roll and the hash of the window, moved on by one byte.
  lemma WindowStep<W(!new)>(p: Poly<W>, s: seq<bv8>, n: nat)
    requires Lawful(p) && |s| == n + 1 && Roll(p, NWINDOW, s[..n]) == Hash(p, Window(s[..n]))
    ensures Roll(p, NWINDOW, s[..n + 1]) == Hash(p, Window(s))
  {
    WindowMoves(s, n);
    if n < NWINDOW {
      RollFill(p, NWINDOW, s, n);
      HashGrows(p, Window(s[..n]), s[n]);
    } else {
      RollSlide(p, NWINDOW, s, n);
      Slide(p, Window(s[..n]), s[n]);
    }
  }

  /** With window tables for NWINDOW bytes the rolling hash is the remainder of exactly the
      last NWINDOW bytes. */
  lemma {:induction false} WindowHash<W(!new)>(p: Poly<W>, s: seq<bv8>)
    requires Lawful(p)
    ensures Roll(p, NWINDOW, s) == Hash(p, Window(s))
  {
    if s != [] {
      var n := |s| - 1;
      WindowHash(p, s[..n]);
      WindowStep(p, s, n);
      assert s[..n + 1] == s;
    }
  }

  /* ---------- any table ---------- */

  // What has left the window.
  function Past(s: seq<bv8>): seq<bv8> {
    if |s| <= 32 then [] else s[..|s| - 32]
  }

  lemma PastMoves(s: seq<bv8>, n: nat)
    requires |s| == n + 1
    ensures n < 32 ==> Past(s) == [] && Past(s[..n]) == []
    ensures n >= 32 ==> Past(s) == Past(s[..n]) + [s[n - 32]]
  {
  }

  // What the table leaves of the past moves on with it, the byte that leaves included.
  lemma PastStep<W(!new)>(p: Poly<W>, h: W, past: W, left: W, x: W, k: nat)
    requires Lawful(p)
    ensures p.add(Times(p, p.add(p.add(h, Times(p, past, k + 8)), Times(p, left, k)), BYTE), x)
         == p.add(p.add(Times(p, h, BYTE), x), Times(p, p.add(Times(p, past, BYTE), left), k + 8))
  {
    var g, l := Times(p, past, k + 8), Times(p, left, k);
    TimesLinear(p, p.add(h, g), l, BYTE);
    TimesLinear(p, h, g, BYTE);
    TimesSum(p, past, k + 8, BYTE);
    TimesSum(p, past, BYTE, k + 8);
    TimesSum(p, left, k, BYTE);
    TimesLinear(p, Times(p, past, BYTE), left, k + 8);
    var a, b, c := Times(p, h, BYTE), Times(p, g, BYTE), Times(p, l, BYTE);
    assert GroupAt(p, a, b, c) && GroupAt(p, a, p.add(b, c), x) && GroupAt(p, p.add(b, c), x, x);
    assert GroupAt(p, a, x, p.add(b, c));
  }

  lemma PastNothing<W(!new)>(p: Poly<W>, h: W, k: nat)
    requires Lawful(p)
    ensures p.add(h, Times(p, Hash(p, []), k)) == h
  {
    TimesZero(p, k);
    assert GroupAt(p, h, h, h);
  }

  // Roll with the closed form before the last byte.
  lemma RollIsStep<W(!new)>(p: Poly<W>, winlen: int, s: seq<bv8>, n: nat, k: nat)
    requires Lawful(p) && |s| == n + 1 && k == Span(winlen)
    requires Roll(p, winlen, s[..n]) == p.add(Hash(p, s[..n]), Times(p, Hash(p, Past(s[..n])), k + 8))
    ensures Roll(p, winlen, s[..n + 1]) == p.add(Hash(p, s[..n + 1]), Times(p, Hash(p, Past(s)), k + 8))
  {
    PastMoves(s, n);
    HashGrows(p, s[..n], s[n]);
    assert s[..n + 1] == s[..n] + [s[n]];
    if n < 32 {
      RollFill(p, winlen, s, n);
      PastNothing(p, Hash(p, s[..n]), k + 8);
      PastNothing(p, Hash(p, s[..n + 1]), k + 8);
    } else {
      RollSlide(p, winlen, s, n);
      HashGrows(p, Past(s[..n]), s[n - 32]);
      PastStep(p, Hash(p, s[..n]), Hash(p, Past(s[..n])), p.of(s[n - 32]), p.of(s[n]), k);
    }
  }

  /** The rolling hash with any window table: the hash of all the bytes so far, and of those
      that have left the window 8 * winlen places up, so that they cancel out when winlen is 32;
      the encoders pass 0, and then a byte that has left remains 8 places above itself. */
  lemma {:induction false} RollIs<W(!new)>(p: Poly<W>, winlen: int, s: seq<bv8>)
    requires Lawful(p)
    ensures Roll(p, winlen, s)
         == p.add(Hash(p, s), Times(p, Hash(p, Past(s)), if winlen <= 1 then 8 else 8 * winlen))
  {
    if s == [] {
      PastNothing(p, p.zero, if winlen <= 1 then 8 else 8 * winlen);
    } else {
      var n := |s| - 1;
      RollIs(p, winlen, s[..n]);
      RollIsStep(p, winlen, s, n, Span(winlen));
      assert s[..n + 1] == s;
    }
  }
}
