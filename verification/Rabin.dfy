/** The tables, the rolling hash and the search for a segment end (samples/dedup/rabin.c). */
module Rabin {
  import opened Gf2
  import opened Segments
  import opened Chunking
  import opened Sequences
  import opened PolyWords

  const RABIN_MASK: bv32 := 0xfff

  lemma SplitBits(h: bv32)
    ensures Xor(h & 0xffffff, (h >> 24) << 24) == h
    ensures (h & 0xffffff) >> 24 == 0 && (h & 0xffffff) << 8 == h << 8
    ensures (h >> 24) >> 24 == 0 && ((h >> 24) << 8) >> 24 == 0 && ((h >> 24) << 16) >> 24 == 0
    ensures ((h >> 24) << 8) << 8 == (h >> 24) << 16 && ((h >> 24) << 16) << 8 == (h >> 24) << 24
  {
  }

  lemma Times32(e: bv32, e8: bv32, e16: bv32, e24: bv32)
    requires e >> 24 == 0 && e8 >> 24 == 0 && e16 >> 24 == 0
    requires e8 == e << 8 && e16 == e8 << 8 && e24 == e16 << 8
    ensures Times(P, e24, BYTE) == Times(P, e, WORD)
  {
    Times8Small(e);
    Times8Small(e8);
    Times8Small(e16);
    TimesSum(P, e, 8, BYTE);
    TimesSum(P, e, 16, BYTE);
    TimesSum(P, e, 24, BYTE);
  }

  /** One look-up in the reduction table multiplies by X^8. */
  lemma TableStep(h: bv32)
    ensures Xor(h << 8, Times(P, h >> 24, WORD)) == Times(P, h, BYTE)
  {
    SplitBits(h);
    PLawful();
    TimesLinear(P, h & 0xffffff, (h >> 24) << 24, BYTE);
    Times8Small(h & 0xffffff);
    Times32(h >> 24, (h >> 24) << 8, (h >> 24) << 16, (h >> 24) << 24);
  }

  /* ---------- the tables ---------- */

  ghost predicate IsTable(tab: seq<bv32>, k: nat) {
    |tab| == 256 && forall b: bv8 :: tab[b as int] == Times(P, Word(b), k)
  }

  lemma Branch(x: bv32, y: bv32)
    requires y == if x >> 31 != 0 then (x << 1) ^ 0x45c2b6a1 else x << 1
    ensures TimesX(P, x) == y
  {
  }

  /** x * X^32. */
  method Fpreduce(x0: bv32, irr: bv32) returns (x: bv32)
    requires irr == P.irr
    ensures x == Times(P, x0, WORD)
  {
    x := x0;
    for i := 32 downto 0
      invariant x == Times(P, x0, 32 - i)
    {
      ghost var y := x;
      if x >> 31 != 0 {
        x := x << 1;
        x := x ^ irr;
      } else {
        x := x << 1;
      }
      Branch(y, x);
    }
  }

  function Shifted(b: bv8, s: nat): bv32
    requires s < 32
  {
    Word(b) << s
  }

  method Fpmkredtab(irr: bv32, s: nat, tab: array<bv32>)
    requires irr == P.irr && s < 32 && tab.Length == 256
    modifies tab
    ensures forall b: bv8 :: tab[b as int] == Times(P, Shifted(b, s), WORD)
  {
    for i := 0 to 256
      invariant forall b: bv8 :: b as int < i ==> tab[b as int] == Times(P, Shifted(b, s), WORD)
    {
      tab[i] := Fpreduce(Shifted(i as bv8, s), irr);
    }
  }

  function TopByte(h: bv32): bv8 {
    (h >> 24) as bv8
  }

  lemma TopByteWord(h: bv32)
    ensures Word(TopByte(h)) == h >> 24
  {
  }

  lemma ShiftIn(h: bv32, b: bv8, t: bv32, r: bv32)
    requires r == ((h << 8) | (b as bv32)) ^ t
    ensures r == Xor(Xor(h << 8, t), Word(b))
  {
  }

  /** Shifting a byte in and reducing. */
  lemma LookUp(tab: seq<bv32>, h: bv32, b: bv8, r: bv32)
    requires IsTable(tab, WORD)
    requires r == ((h << 8) | (b as bv32)) ^ tab[TopByte(h) as int]
    ensures r == Xor(Times(P, h, BYTE), Word(b))
  {
    TopByteWord(h);
    TableStep(h);
    ShiftIn(h, b, tab[TopByte(h) as int], r);
  }

  lemma IsXor(a: bv32, b: bv32, r: bv32)
    requires r == a ^ b
    ensures r == Xor(a, b)
  {
  }

  lemma Reduce(tab: seq<bv32>, h: bv32, r: bv32)
    requires IsTable(tab, WORD)
    requires r == (h << 8) ^ tab[TopByte(h) as int]
    ensures r == Times(P, h, BYTE)
  {
    IsXor(h << 8, tab[TopByte(h) as int], r);
    TopByteWord(h);
    TableStep(h);
  }

  // A byte shifted in, and a zero byte shifted in.
  method Append(h0: bv32, b: bv8, rabintab: array<bv32>) returns (h: bv32)
    requires IsTable(rabintab[..], WORD)
    ensures h == Xor(Times(P, h0, BYTE), Word(b))
  {
    var x := TopByte(h0);
    h := (h0 << 8) | (b as bv32);
    h := h ^ rabintab[x as int];
    LookUp(rabintab[..], h0, b, h);
  }

  method AppendZero(h0: bv32, rabintab: array<bv32>) returns (h: bv32)
    requires IsTable(rabintab[..], WORD)
    ensures h == Times(P, h0, BYTE)
  {
    h := (h0 << 8) ^ rabintab[TopByte(h0) as int];
    Reduce(rabintab[..], h0, h);
  }

  lemma FromZero(x: bv8, r: bv32)
    requires r == Xor(Times(P, 0, BYTE), Word(x))
    ensures r == Times(P, Word(x), 0)
  {
    PLawful();
    TimesZero(P, BYTE);
    XorLaws(0, Word(x), 0);
  }

  lemma WindowEntry(x: bv8, k: nat, w: bv32, r: bv32)
    requires w == Times(P, Word(x), k) && r == Times(P, w, BYTE)
    ensures r == Times(P, Word(x), k + BYTE)
  {
    TimesSum(P, Word(x), k, BYTE);
  }

  method Fpwinreduce(winlen: int, x: bv8, rabintab: array<bv32>) returns (winval: bv32)
    requires IsTable(rabintab[..], WORD)
    ensures winval == Times(P, Word(x), Span(winlen))
    ensures winlen <= 1 ==> winval == x as bv32
  {
    winval := 0;
    winval := Append(winval, x, rabintab);
    FromZero(x, winval);
    ghost var k: nat := 0;
    var i := 1;
    while i < winlen
      invariant 1 <= i && (i == 1 || i <= winlen)
      invariant k == 8 * (i - 1) && winval == Times(P, Word(x), k)
    {
      ghost var w := winval;
      winval := AppendZero(winval, rabintab);
      WindowEntry(x, k, w, winval);
      k := k + BYTE;
      i := i + 1;
    }
  }

  method Fpmkwinredtab(winlen: int, rabintab: array<bv32>, rabinwintab: array<bv32>)
    requires IsTable(rabintab[..], WORD) && rabinwintab.Length == 256 && rabintab != rabinwintab
    modifies rabinwintab
    ensures IsTable(rabinwintab[..], Span(winlen))
    ensures winlen <= 1 ==> forall b: bv8 :: rabinwintab[b as int] == Word(b)
  {
    for i := 0 to 256
      invariant forall b: bv8 :: b as int < i ==> rabinwintab[b as int] == Times(P, Word(b), Span(winlen))
      invariant winlen <= 1 ==> forall b: bv8 :: b as int < i ==> rabinwintab[b as int] == Word(b)
    {
      rabinwintab[i] := Fpwinreduce(winlen, i as bv8, rabintab);
    }
  }

  method Rabininit(winlen: int, rabintab: array<bv32>, rabinwintab: array<bv32>)
    requires rabintab.Length == 256 && rabinwintab.Length == 256 && rabintab != rabinwintab
    modifies rabintab, rabinwintab
    ensures IsTable(rabintab[..], WORD) && IsTable(rabinwintab[..], Span(winlen))
    ensures forall b: bv8 :: rabintab[b as int] == Times(P, Word(b), 32)
    ensures forall b: bv8 :: rabinwintab[b as int] == Times(P, Word(b), if winlen <= 1 then 0 else 8 * (winlen - 1))
    ensures winlen <= 1 ==> forall b: bv8 :: rabinwintab[b as int] == Word(b)
  {
    Fpmkredtab(0x45c2b6a1, 0, rabintab);
    assert forall b: bv8 :: Shifted(b, 0) == Word(b);
    Fpmkwinredtab(winlen, rabintab, rabinwintab);
  }

  /* ---------- the segment end ---------- */

  // The test (h & RABIN_MASK) == 0.
  predicate Masked(h: bv32) {
    h & RABIN_MASK == 0
  }

  predicate Matches(winlen: int, p: seq<bv8>) {
    |p| >= NWINDOW && Masked(Roll(P, winlen, p))
  }

  function Matcher(winlen: int): seq<bv8> -> bool {
    p => Matches(winlen, p)
  }

  lemma RollXor(winlen: int, p: seq<bv8>, k: nat)
    requires |p| >= 32 && k == if winlen <= 1 then 8 else 8 * winlen
    ensures Roll(P, winlen, p) == Xor(Hash(P, p), Times(P, Hash(P, p[..|p| - 32]), k))
  {
    PLawful();
    RollIs(P, winlen, p);
    assert Past(p) == p[..|p| - 32];
  }

  // The low twelve bits of the sum are 0.
  predicate LowBitsCancel(a: bv32, b: bv32) {
    (a ^ b) & 0xfff == 0
  }

  lemma MatchBits(a: bv32, b: bv32, r: bv32)
    requires r == Xor(a, b)
    ensures Masked(r) <==> LowBitsCancel(a, b)
  {
  }

  lemma MatchesLong(winlen: int, p: seq<bv8>, a: bv32, b: bv32)
    requires |p| >= 32 && Roll(P, winlen, p) == Xor(a, b)
    ensures Matches(winlen, p) <==> LowBitsCancel(a, b)
  {
    MatchBits(a, b, Roll(P, winlen, p));
  }

  /** When a segment may end, with any window table, in terms of the bytes: after at least 32,
      when the low twelve bits of the hash of all of them, and of those that have left the window 8 *
      winlen places up, cancel out; the encoders pass 0, for which that is 8 places. */
  lemma MatchIs(winlen: int, p: seq<bv8>, k: nat)
    requires k == if winlen <= 1 then 8 else 8 * winlen
    ensures Matches(winlen, p) <==>
      |p| >= 32 && LowBitsCancel(Hash(P, p), Times(P, Hash(P, p[..|p| - 32]), k))
  {
    if |p| >= 32 {
      RollXor(winlen, p, k);
      MatchesLong(winlen, p, Hash(P, p), Times(P, Hash(P, p[..|p| - 32]), k));
    }
  }

  /** Where a segment may end is decided by the last NWINDOW bytes alone. */
  lemma MatchIsLocal(p: seq<bv8>, q: seq<bv8>)
    requires |p| >= NWINDOW && |q| >= NWINDOW && p[|p| - NWINDOW..] == q[|q| - NWINDOW..]
    ensures Matches(NWINDOW, p) == Matches(NWINDOW, q)
  {
    PLawful();
    WindowHash(P, p);
    WindowHash(P, q);
    assert Window(p) == p[|p| - NWINDOW..] && Window(q) == q[|q| - NWINDOW..];
  }

  // The loop bodies of rabinseg: shifting a byte in, and moving the window by one byte.
  method Cancel(h0: bv32, x: bv8, ghost k: nat, rabinwintab: array<bv32>) returns (h: bv32)
    requires IsTable(rabinwintab[..], k)
    ensures h == Xor(h0, Times(P, Word(x), k))
  {
    h := h0 ^ rabinwintab[x as int];
    IsXor(h0, rabinwintab[x as int], h);
  }

  lemma RollFills(winlen: int, p: seq<bv8>, i: nat, h0: bv32, h: bv32)
    requires i < NWINDOW && i < |p| && h0 == Roll(P, winlen, p[..i]) && h == Xor(Times(P, h0, BYTE), Word(p[i]))
    ensures h == Roll(P, winlen, p[..i + 1])
  {
    RollFill(P, winlen, p, i);
  }

  lemma RollMoves(winlen: int, p: seq<bv8>, i: nat, h0: bv32, h1: bv32, h: bv32)
    requires NWINDOW <= i < |p| && h0 == Roll(P, winlen, p[..i])
    requires h1 == Xor(h0, Times(P, Word(p[i - NWINDOW]), Span(winlen))) && h == Xor(Times(P, h1, BYTE), Word(p[i]))
    ensures h == Roll(P, winlen, p[..i + 1])
  {
    RollSlide(P, winlen, p, i);
  }

  // What the search relies on, as facts about a sequence of hash values and a predicate that
  // are only looked into at one position at a time.
  ghost predicate RollAt(rs: seq<bv32>, winlen: int, p: seq<bv8>, i: int)
    requires 0 <= i <= |p| < |rs|
  {
    rs[i] == Roll(P, winlen, p[..i])
  }

  ghost predicate MatchAt(rs: seq<bv32>, m: seq<bv8> -> bool, p: seq<bv8>, i: int)
    requires 0 <= i <= |p| < |rs|
  {
    m(p[..i]) <==> i >= NWINDOW && Masked(rs[i])
  }

  ghost predicate Rolls(rs: seq<bv32>, winlen: int, p: seq<bv8>) {
    |rs| == |p| + 1 && rs[0] == 0 && forall i :: 0 <= i <= |p| ==> RollAt(rs, winlen, p, i)
  }

  ghost predicate Decides(rs: seq<bv32>, m: seq<bv8> -> bool, p: seq<bv8>) {
    |rs| == |p| + 1 && forall i :: 0 <= i <= |p| ==> MatchAt(rs, m, p, i)
  }

  lemma Plan(winlen: int, p: seq<bv8>) returns (rs: seq<bv32>, m: seq<bv8> -> bool)
    ensures Rolls(rs, winlen, p) && Decides(rs, m, p) && Seg(m, p) == Seg(Matcher(winlen), p)
  {
    m := Matcher(winlen);
    rs := seq(|p| + 1, i requires 0 <= i < |p| + 1 => Roll(P, winlen, p[..i]));
  }

  method Fill(p: seq<bv8>, ghost winlen: int, ghost rs: seq<bv32>, i: nat, h0: bv32, rabintab: array<bv32>)
    returns (h: bv32)
    requires i < NWINDOW && i < |p| && IsTable(rabintab[..], WORD) && Rolls(rs, winlen, p) && h0 == rs[i]
    ensures h == rs[i + 1]
  {
    assert RollAt(rs, winlen, p, i) && RollAt(rs, winlen, p, i + 1);
    h := Append(h0, p[i], rabintab);
    RollFills(winlen, p, i, h0, h);
  }

  method Move(p: seq<bv8>, ghost winlen: int, ghost rs: seq<bv32>, i: nat, h0: bv32,
              rabintab: array<bv32>, rabinwintab: array<bv32>)
    returns (h: bv32)
    requires NWINDOW <= i < |p| && Rolls(rs, winlen, p) && h0 == rs[i]
    requires IsTable(rabintab[..], WORD) && IsTable(rabinwintab[..], Span(winlen))
    ensures h == rs[i + 1]
  {
    assert RollAt(rs, winlen, p, i) && RollAt(rs, winlen, p, i + 1);
    var h1 := Cancel(h0, p[i - NWINDOW], Span(winlen), rabinwintab);
    h := Append(h1, p[i], rabintab);
    RollMoves(winlen, p, i, h0, h1, h);
  }

  // The search at i: a match ends the segment, otherwise it goes on.
  lemma SearchAt(rs: seq<bv32>, m: seq<bv8> -> bool, p: seq<bv8>, i: nat)
    requires Decides(rs, m, p) && i <= |p| && Seg(m, p) == First(m, p, i)
    ensures i >= NWINDOW && Masked(rs[i]) ==> Seg(m, p) == i
    ensures i < |p| && (i < NWINDOW || !Masked(rs[i])) ==> Seg(m, p) == First(m, p, i + 1)
  {
    assert MatchAt(rs, m, p, i);
  }

  lemma {:induction false} TooShort(rs: seq<bv32>, m: seq<bv8> -> bool, p: seq<bv8>, i: nat)
    requires Decides(rs, m, p) && i <= |p| && i <= NWINDOW
    ensures Seg(m, p) == First(m, p, i)
  {
    if i > 0 {
      TooShort(rs, m, p, i - 1);
      SearchAt(rs, m, p, i - 1);
    }
  }

  // The first loop of rabinseg.
  method HashWindow(p: seq<bv8>, ghost winlen: int, ghost rs: seq<bv32>, rabintab: array<bv32>) returns (h: bv32)
    requires NWINDOW <= |p| && IsTable(rabintab[..], WORD) && Rolls(rs, winlen, p)
    ensures h == rs[NWINDOW]
  {
    h := 0;
    for i := 0 to NWINDOW
      invariant h == rs[i]
    {
      h := Fill(p, winlen, rs, i, h, rabintab);
    }
  }

  // A turn of the second loop: it stops at i + 1, or the search goes on.
  method Turn(p: seq<bv8>, ghost winlen: int, ghost rs: seq<bv32>, ghost m: seq<bv8> -> bool, i: nat, h0: bv32,
              rabintab: array<bv32>, rabinwintab: array<bv32>)
    returns (h: bv32, stop: bool)
    requires NWINDOW <= i < |p| && Rolls(rs, winlen, p) && Decides(rs, m, p) && h0 == rs[i]
    requires IsTable(rabintab[..], WORD) && IsTable(rabinwintab[..], Span(winlen))
    requires Seg(m, p) == First(m, p, i + 1)
    ensures h == rs[i + 1] && (stop ==> Seg(m, p) == i + 1)
    ensures !stop ==> Seg(m, p) == if i + 1 == |p| then i + 1 else First(m, p, i + 2)
  {
    h := Move(p, winlen, rs, i, h0, rabintab, rabinwintab);
    stop := Test(p, rs, m, i + 1, h);
  }

  // The masked hash decides whether the search ends at i.
  method Test(p: seq<bv8>, ghost rs: seq<bv32>, ghost m: seq<bv8> -> bool, i: nat, h: bv32) returns (stop: bool)
    requires NWINDOW <= i <= |p| && Decides(rs, m, p) && h == rs[i] && Seg(m, p) == First(m, p, i)
    ensures stop ==> Seg(m, p) == i
    ensures !stop ==> Seg(m, p) == if i == |p| then i else First(m, p, i + 1)
  {
    SearchAt(rs, m, p, i);
    stop := Masked(h);
  }

  // The second loop of rabinseg.
  method Scan(p: seq<bv8>, ghost winlen: int, ghost rs: seq<bv32>, ghost m: seq<bv8> -> bool, h0: bv32,
              rabintab: array<bv32>, rabinwintab: array<bv32>)
    returns (n: nat)
    requires NWINDOW <= |p| && Rolls(rs, winlen, p) && Decides(rs, m, p) && h0 == rs[NWINDOW]
    requires IsTable(rabintab[..], WORD) && IsTable(rabinwintab[..], Span(winlen))
    requires Seg(m, p) == if NWINDOW == |p| then NWINDOW else First(m, p, NWINDOW + 1)
    ensures n == Seg(m, p)
  {
    var h, i, stop := h0, NWINDOW, false;
    while i < |p| && !stop
      invariant NWINDOW <= i <= |p| && h == rs[i]
      invariant if stop then Seg(m, p) == i else Seg(m, p) == if i == |p| then i else First(m, p, i + 1)
      decreases |p| - i
    {
      h, stop := Turn(p, winlen, rs, m, i, h, rabintab, rabinwintab);
      i := i + 1;
    }
    return i;
  }

  // rabinseg for n of at least NWINDOW
  method FirstMatch(p: seq<bv8>, ghost winlen: int, rabintab: array<bv32>, rabinwintab: array<bv32>) returns (n: nat)
    requires IsTable(rabintab[..], WORD) && IsTable(rabinwintab[..], Span(winlen)) && NWINDOW <= |p|
    ensures n == Seg(Matcher(winlen), p)
  {
    ghost var rs, m := Plan(winlen, p);
    TooShort(rs, m, p, NWINDOW);
    var h := HashWindow(p, winlen, rs, rabintab);
    SearchAt(rs, m, p, NWINDOW);
    if Masked(h) {
      return NWINDOW;
    }
    n := Scan(p, winlen, rs, m, h, rabintab, rabinwintab);
  }

  /** The first position below n at which the rolling hash matches, or n; nothing is searched
      when n is negative. */
  method Rabinseg(p: seq<bv8>, n: int, ghost winlen: int, rabintab: array<bv32>, rabinwintab: array<bv32>)
    returns (offset: int)
    requires IsTable(rabintab[..], WORD) && IsTable(rabinwintab[..], Span(winlen)) && n <= |p|
    ensures offset == if n < 0 then n else Seg(Matcher(winlen), p[..n])
  {
    if n < NWINDOW {
      if n >= 0 { NoMatch(winlen, p[..n]); }
      return n;
    }
    offset := FirstMatch(p[..n], winlen, rabintab, rabinwintab);
  }

  // Fewer than NWINDOW bytes hold no end.
  lemma NoMatch(winlen: int, p: seq<bv8>)
    requires |p| < NWINDOW
    ensures Seg(Matcher(winlen), p) == |p|
  {
    var rs, m := Plan(winlen, p);
    TooShort(rs, m, p, |p|);
  }

  /** The encoder's chunks, in order, are its input, whatever tables and jump it uses. */
  lemma EncoderChunks(winlen: int, jump: nat, input: seq<bv8>)
    ensures var m := Matcher(winlen);
      && NotEmpty(m) && Cutter(Fine(m)) && Cutter(Coarse(m, jump))
      && Concat(Pieces(Fine(m), input)) == input
      && Concat(Refined(m, Pieces(Coarse(m, jump), input))) == input
  {
    CoarseCuts(Matcher(winlen), 0);
    PiecesConcat(Fine(Matcher(winlen)), input);
    TwoLevels(Matcher(winlen), jump, input);
  }

  /* ---------- a file without an end ---------- */

  lemma LowBit(h: bv32, h0: bv32, h1: bv32)
    requires h0 == Xor(h, Word(0)) && h1 == Xor(h, Word(1))
    ensures Masked(h0) ==> !Masked(h1)
  {
  }

  // A byte that leaves the masked hash different from 0.
  function QuietByte(winlen: int): seq<bv8> -> bv8 {
    q => if Masked(Roll(P, winlen, q + [0])) then 1 else 0
  }

  lemma QuietByteIs(winlen: int, q: seq<bv8>)
    ensures !Masked(Roll(P, winlen, q + [QuietByte(winlen)(q)]))
  {
    RollNext(P, winlen, q, 0);
    RollNext(P, winlen, q, 1);
    LowBit(Moved(P, winlen, q), Roll(P, winlen, q + [0]), Roll(P, winlen, q + [1]));
  }

  // n bytes, each 0 or 1.
  function Quiet(winlen: int, n: nat): seq<bv8> {
    Grown(QuietByte(winlen), n)
  }

  lemma QuietRoll(winlen: int, n: nat)
    requires n > 0
    ensures !Masked(Roll(P, winlen, Quiet(winlen, n)))
  {
    GrownNext(QuietByte(winlen), n);
    QuietByteIs(winlen, Grown(QuietByte(winlen), n - 1));
  }

  /** There are inputs of every length in which no segment ends. */
  lemma QuietSeg(winlen: int, n: nat)
    ensures |Quiet(winlen, n)| == n && Seg(Matcher(winlen), Quiet(winlen, n)) == n
  {
    var q := Quiet(winlen, n);
    var k := Seg(Matcher(winlen), q);
    if k < n {
      GrownPrefix(QuietByte(winlen), n, k);
      assert Matches(winlen, q[..k]);
      if k > 0 { QuietRoll(winlen, k); }
    }
  }
}
