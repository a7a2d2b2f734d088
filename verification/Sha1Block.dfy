/** Both versions of HASH_BLOCK_DATA_ORDER of samples/dedup/openssl/sha_locl.h. */
module Sha1Block {
  import opened Bytes
  import opened Sha1Spec

  // The operations, round functions and constants of the code, on registers.
  datatype Registers<!R> = Registers(
    add: (R, R) -> R,
    xor: (R, R) -> R,
    rotl1: R -> R,
    rotl5: R -> R,
    rotl30: R -> R,
    f_00_19: (R, R, R) -> R,
    f_20_39: (R, R, R) -> R,
    f_40_59: (R, R, R) -> R,
    f_60_79: (R, R, R) -> R,
    k_00_19: R,
    k_20_39: R,
    k_40_59: R,
    k_60_79: R)

  // Registers are of type R, the context and the small-footprint X array of type W; init is what
  // HASH_INIT stores, c2l and l2c are HOST_c2l and HOST_l2c.
  datatype Machine<!R, !W> = Machine(
    regs: Registers<R>,
    words: Words<W>,
    widen: W -> R,
    narrow: R -> W,
    holds: (R, W) -> bool,
    init: Hash<W>,
    c2l: (byte, byte, byte, byte) -> R,
    l2c: W -> seq<byte>)

  // The ranges of rounds for which the code has a function and a constant of its own.
  datatype Range = Rounds00_19 | Rounds20_39 | Rounds40_59 | Rounds60_79

  predicate Covers(g: Range, t: nat) {
    match g
    case Rounds00_19 => t < 20
    case Rounds20_39 => 20 <= t < 40
    case Rounds40_59 => 40 <= t < 60
    case Rounds60_79 => 60 <= t
  }

  function Fun<R>(r: Registers<R>, g: Range, x: R, y: R, z: R): R {
    match g
    case Rounds00_19 => r.f_00_19(x, y, z)
    case Rounds20_39 => r.f_20_39(x, y, z)
    case Rounds40_59 => r.f_40_59(x, y, z)
    case Rounds60_79 => r.f_60_79(x, y, z)
  }

  function Constant<R>(r: Registers<R>, g: Range): R {
    match g
    case Rounds00_19 => r.k_00_19
    case Rounds20_39 => r.k_20_39
    case Rounds40_59 => r.k_40_59
    case Rounds60_79 => r.k_60_79
  }

  // Register x carries word a, and so on: the machine's obligations for particular arguments, so
  // that a proof can name the instances it needs.
  ghost predicate AddAt<R, W>(m: Machine<R, W>, x: R, y: R, a: W, b: W) {
    m.holds(x, a) && m.holds(y, b) ==> m.holds(m.regs.add(x, y), m.words.add(a, b))
  }

  ghost predicate XorAt<R, W>(m: Machine<R, W>, x: R, y: R, a: W, b: W) {
    m.holds(x, a) && m.holds(y, b) ==> m.holds(m.regs.xor(x, y), m.words.xor(a, b))
  }

  ghost predicate RotateAt<R, W>(m: Machine<R, W>, x: R, a: W) {
    m.holds(x, a) ==>
      && m.holds(m.regs.rotl1(x), m.words.rotl1(a))
      && m.holds(m.regs.rotl5(x), m.words.rotl5(a))
      && m.holds(m.regs.rotl30(x), m.words.rotl30(a))
  }

  ghost predicate MixAt<R, W>(m: Machine<R, W>, x: R, y: R, z: R, a: W, b: W, c: W) {
    m.holds(x, a) && m.holds(y, b) && m.holds(z, c) ==>
      && m.holds(m.regs.f_00_19(x, y, z), m.words.ch(a, b, c))
      && m.holds(m.regs.f_20_39(x, y, z), m.words.parity(a, b, c))
      && m.holds(m.regs.f_40_59(x, y, z), m.words.maj(a, b, c))
      && m.holds(m.regs.f_60_79(x, y, z), m.words.parity(a, b, c))
  }

  ghost predicate NarrowAt<R, W>(m: Machine<R, W>, x: R, a: W) {
    m.holds(x, a) ==> m.narrow(x) == a
  }

  ghost predicate WidenAt<R, W>(m: Machine<R, W>, a: W) {
    m.holds(m.widen(a), a)
  }

  ghost predicate ConstantAt<R, W>(m: Machine<R, W>, t: nat) {
    && (t < 20 ==> m.holds(m.regs.k_00_19, m.words.k(t)))
    && (20 <= t < 40 ==> m.holds(m.regs.k_20_39, m.words.k(t)))
    && (40 <= t < 60 ==> m.holds(m.regs.k_40_59, m.words.k(t)))
    && (60 <= t ==> m.holds(m.regs.k_60_79, m.words.k(t)))
  }

  /** What the machine has to provide: register x `holds` word a when its low bits are a.
      Nothing is asked of the other bits. */
  ghost predicate Simulates<R(!new), W(!new)>(m: Machine<R, W>) {
    && (forall x, a :: NarrowAt(m, x, a))
    && (forall a :: WidenAt(m, a))
    && (forall t :: ConstantAt(m, t))
    && (forall x, y, a, b :: AddAt(m, x, y, a, b))
    && (forall x, y, a, b :: XorAt(m, x, y, a, b))
    && (forall x, a :: RotateAt(m, x, a))
    && (forall x, y, z, a, b, c :: MixAt(m, x, y, z, a, b, c))
  }

  /** The orders in which the macros add the five terms of a round: rotated a, f, e, k, and
      the schedule word x. */
  ghost predicate AddOrderAt<W>(w: Words<W>, r: W, f: W, e: W, k: W, x: W) {
    var sum := w.add(w.add(w.add(w.add(r, f), e), k), x);
    && w.add(w.add(w.add(w.add(x, e), k), r), f) == sum
    && w.add(x, w.add(w.add(w.add(e, k), r), f)) == sum
    && w.add(w.add(r, w.add(w.add(e, k), f)), x) == sum
    && w.add(r, w.add(x, w.add(w.add(e, k), f))) == sum
  }

  ghost predicate XorOrderAt<W>(w: Words<W>, a: W, b: W, c: W, d: W) {
    w.xor(w.xor(w.xor(a, b), c), d) == w.xor(w.xor(w.xor(d, c), b), a)
  }

  ghost predicate Lawful<R(!new), W(!new)>(m: Machine<R, W>) {
    && Simulates(m)
    && (forall r, f, e, k, x :: AddOrderAt(m.words, r, f, e, k, x))
    && (forall a, b, c, d :: XorOrderAt(m.words, a, b, c, d))
  }

  ghost predicate LoadAt<R, W>(m: Machine<R, W>, sha: Sha<W>, a: byte, b: byte, c: byte, d: byte) {
    m.holds(m.c2l(a, b, c, d), sha.load(a, b, c, d))
  }

  ghost predicate StoreAt<R, W>(m: Machine<R, W>, sha: Sha<W>, w: W) {
    m.l2c(w) == sha.store(w)
  }

  /** The machine has the words, initial value and byte order of the hash function. */
  ghost predicate Implements<R(!new), W(!new)>(m: Machine<R, W>, sha: Sha<W>) {
    && Lawful(m) && m.words == sha.words && m.init == sha.initial
    && (forall a, b, c, d :: LoadAt(m, sha, a, b, c, d))
    && (forall w :: StoreAt(m, sha, w))
  }

  ghost predicate HashHeld<R, W>(m: Machine<R, W>, s: Hash<R>, h: Hash<W>) {
    && m.holds(s.a, h.a) && m.holds(s.b, h.b) && m.holds(s.c, h.c) && m.holds(s.d, h.d) && m.holds(s.e, h.e)
  }

  function WidenHash<R, W>(m: Machine<R, W>, h: Hash<W>): Hash<R> {
    Hash(m.widen(h.a), m.widen(h.b), m.widen(h.c), m.widen(h.d), m.widen(h.e))
  }

  // c->hN = (c->hN + X) & 0xffffffff
  function Save<R, W>(m: Machine<R, W>, h: W, x: R): W {
    m.narrow(m.regs.add(m.widen(h), x))
  }

  function SaveAll<R, W>(m: Machine<R, W>, h: Hash<W>, s: Hash<R>): Hash<W> {
    Hash(Save(m, h.a, s.a), Save(m, h.b, s.b), Save(m, h.c, s.c), Save(m, h.d, s.d), Save(m, h.e, s.e))
  }

  lemma SaveHeld<R(!new), W(!new)>(m: Machine<R, W>, h: W, x: R, a: W)
    requires Simulates(m) && m.holds(x, a)
    ensures Save(m, h, x) == m.words.add(h, a)
  {
    assert WidenAt(m, h) && AddAt(m, m.widen(h), x, h, a);
    assert NarrowAt(m, m.regs.add(m.widen(h), x), m.words.add(h, a));
  }

  lemma SaveIsSum<R(!new), W(!new)>(m: Machine<R, W>, h: Hash<W>, s: Hash<R>, s': Hash<W>)
    requires Simulates(m) && HashHeld(m, s, s')
    ensures SaveAll(m, h, s) == Sum(m.words, h, s')
  {
    SaveHeld(m, h.a, s.a, s'.a);
    SaveHeld(m, h.b, s.b, s'.b);
    SaveHeld(m, h.c, s.c, s'.c);
    SaveHeld(m, h.d, s.d, s'.d);
    SaveHeld(m, h.e, s.e, s'.e);
  }

  // The 16-word window: after n rounds slot j mod 16 holds schedule word j for the last 16 j.
  ghost predicate Window<W>(w: Words<W>, block: seq<W>, X: seq<W>, n: nat)
    requires |block| == 16
  {
    |X| == 16 && forall j: nat {:trigger Schedule(w, block, j)} :: j < n <= j + 16 ==> X[j % 16] == Schedule(w, block, j)
  }

  /* ---------- the small-footprint version ---------- */

  // E + K + F(B, C, D), with the K and F of the macro
  function Mix<R>(r: Registers<R>, s: Hash<R>, g: Range): R {
    r.add(r.add(s.e, Constant(r, g)), Fun(r, g, s.b, s.c, s.d))
  }

  // E = D, D = C, C = ROTATE(B, 30), B = A, and then A := a
  function Shift<R>(r: Registers<R>, s: Hash<R>, a: R): Hash<R> {
    Hash(a, s.a, r.rotl30(s.b), s.c, s.d)
  }

  // BODY_00_15 and, after Xupdate, BODY_60_79: the schedule word is added last
  function BodyLast<R>(r: Registers<R>, s: Hash<R>, g: Range, xi: R): Hash<R> {
    Shift(r, s, r.add(r.add(r.rotl5(s.a), Mix(r, s, g)), xi))
  }

  // BODY_16_19, BODY_20_39 and BODY_40_59 after Xupdate: T already is the schedule word
  function BodyFirst<R>(r: Registers<R>, s: Hash<R>, g: Range, T: R): Hash<R> {
    Shift(r, s, r.add(r.rotl5(s.a), r.add(T, Mix(r, s, g))))
  }

  // In the rounds it is for, the macro's function is the one of the standard.
  lemma FHeld<R(!new), W(!new)>(m: Machine<R, W>, s: Hash<R>, s': Hash<W>, g: Range, t: nat)
    requires Simulates(m) && HashHeld(m, s, s') && Covers(g, t)
    ensures m.holds(Fun(m.regs, g, s.b, s.c, s.d), F(m.words, t, s'.b, s'.c, s'.d))
  {
    assert MixAt(m, s.b, s.c, s.d, s'.b, s'.c, s'.d);
  }

  lemma AddHeld<R(!new), W(!new)>(m: Machine<R, W>, x: R, y: R, a: W, b: W)
    requires Simulates(m) && m.holds(x, a) && m.holds(y, b)
    ensures m.holds(m.regs.add(x, y), m.words.add(a, b))
  {
    assert AddAt(m, x, y, a, b);
  }

  lemma XorHeld<R(!new), W(!new)>(m: Machine<R, W>, x: R, y: R, a: W, b: W)
    requires Simulates(m) && m.holds(x, a) && m.holds(y, b)
    ensures m.holds(m.regs.xor(x, y), m.words.xor(a, b))
  {
    assert XorAt(m, x, y, a, b);
  }

  lemma RotatesHeld<R(!new), W(!new)>(m: Machine<R, W>, x: R, a: W)
    requires Simulates(m) && m.holds(x, a)
    ensures m.holds(m.regs.rotl1(x), m.words.rotl1(a))
    ensures m.holds(m.regs.rotl5(x), m.words.rotl5(a))
    ensures m.holds(m.regs.rotl30(x), m.words.rotl30(a))
  {
    assert RotateAt(m, x, a);
  }

  lemma ConstantHeld<R(!new), W(!new)>(m: Machine<R, W>, g: Range, t: nat)
    requires Simulates(m) && Covers(g, t)
    ensures m.holds(Constant(m.regs, g), m.words.k(t))
  {
    assert ConstantAt(m, t);
  }

  // The five terms of a round, in registers p, f, e, k and x that hold p', f', e', k' and x':
  // the sums the two loop macros form, and their value in the order of the standard.
  lemma LoopSums<R(!new), W(!new)>(m: Machine<R, W>, p: R, f: R, e: R, k: R, x: R, p': W, f': W, e': W, k': W, x': W)
    requires Lawful(m) && m.holds(p, p') && m.holds(f, f') && m.holds(e, e') && m.holds(k, k') && m.holds(x, x')
    ensures var r, w := m.regs, m.words;
      var sum := w.add(w.add(w.add(w.add(p', f'), e'), k'), x');
      && m.holds(r.add(r.add(p, r.add(r.add(e, k), f)), x), sum)
      && m.holds(r.add(p, r.add(x, r.add(r.add(e, k), f))), sum)
  {
    var r, w := m.regs, m.words;
    AddHeld(m, e, k, e', k');
    var ek, ek' := r.add(e, k), w.add(e', k');
    AddHeld(m, ek, f, ek', f');
    var mix, mix' := r.add(ek, f), w.add(ek', f');
    AddHeld(m, p, mix, p', mix');
    AddHeld(m, r.add(p, mix), x, w.add(p', mix'), x');
    AddHeld(m, x, mix, x', mix');
    AddHeld(m, p, r.add(x, mix), p', w.add(x', mix'));
    assert AddOrderAt(w, p', f', e', k', x');
  }

  lemma BodiesHeld<R(!new), W(!new)>(m: Machine<R, W>, s: Hash<R>, s': Hash<W>, g: Range, t: nat, x: R, x': W)
    requires Lawful(m) && HashHeld(m, s, s') && m.holds(x, x') && Covers(g, t)
    ensures HashHeld(m, BodyLast(m.regs, s, g, x), Round(m.words, s', t, x'))
    ensures HashHeld(m, BodyFirst(m.regs, s, g, x), Round(m.words, s', t, x'))
  {
    FHeld(m, s, s', g, t);
    RotatesHeld(m, s.a, s'.a);
    RotatesHeld(m, s.b, s'.b);
    ConstantHeld(m, g, t);
    var r, w := m.regs, m.words;
    LoopSums(m, r.rotl5(s.a), Fun(r, g, s.b, s.c, s.d), s.e, Constant(r, g), x,
             w.rotl5(s'.a), F(w, t, s'.b, s'.c, s'.d), s'.e, w.k(t), x');
  }

  // The value Xupdate leaves in T, from X[t], X[t-14], X[t-8] and X[t-3].
  function Updated<R, W>(m: Machine<R, W>, xa: W, xb: W, xc: W, xd: W): R {
    m.regs.rotl1(m.widen(m.words.xor(m.words.xor(m.words.xor(xa, xb), xc), xd)))
  }

  // The slots of the four words that Xupdate combines.
  lemma Slots(t: nat)
    requires t >= 16
    ensures (t - 16) % 16 == t % 16 && (t - 14) % 16 == (t + 2) % 16
    ensures (t - 8) % 16 == (t + 8) % 16 && (t - 3) % 16 == (t + 13) % 16
  {
  }

  lemma WindowSlots<W>(w: Words<W>, block: seq<W>, X: seq<W>, t: nat)
    requires |block| == 16 && t >= 16 && Window(w, block, X, t)
    ensures X[t % 16] == Schedule(w, block, t - 16) && X[(t + 2) % 16] == Schedule(w, block, t - 14)
    ensures X[(t + 8) % 16] == Schedule(w, block, t - 8) && X[(t + 13) % 16] == Schedule(w, block, t - 3)
  {
    Slots(t);
    assert X[(t - 16) % 16] == Schedule(w, block, t - 16);
    assert X[(t - 14) % 16] == Schedule(w, block, t - 14);
    assert X[(t - 8) % 16] == Schedule(w, block, t - 8);
    assert X[(t - 3) % 16] == Schedule(w, block, t - 3);
  }

  lemma UpdatedHeld<R(!new), W(!new)>(m: Machine<R, W>, a: W, b: W, c: W, d: W)
    requires Lawful(m)
    ensures var w := m.words;
      m.holds(Updated(m, a, b, c, d), w.rotl1(w.xor(w.xor(w.xor(d, c), b), a)))
  {
    var x := m.words.xor(m.words.xor(m.words.xor(a, b), c), d);
    assert WidenAt(m, x) && XorOrderAt(m.words, a, b, c, d);
    RotatesHeld(m, m.widen(x), x);
  }

  lemma WindowNext<W>(w: Words<W>, block: seq<W>, X: seq<W>, t: nat, x: W)
    requires |block| == 16 && Window(w, block, X, t) && x == Schedule(w, block, t)
    ensures Window(w, block, X[t % 16 := x], t + 1)
  {
    forall j: nat {:trigger Schedule(w, block, j)} | j < t + 1 <= j + 16
      ensures X[t % 16 := x][j % 16] == Schedule(w, block, j)
    {
      if j < t { OtherSlot(j, t); }
    }
  }

  // Fewer than 16 rounds apart, two schedule words are in different slots.
  lemma OtherSlot(j: nat, t: nat)
    requires j < t < j + 16
    ensures j % 16 != t % 16
  {
  }

  // What holds before round t: the registers carry the working variables and X the window.
  ghost predicate Before<R, W>(m: Machine<R, W>, h: Hash<W>, block: seq<W>, X: seq<W>, s: Hash<R>, t: nat) {
    |block| == 16 && Window(m.words, block, X, t) && HashHeld(m, s, Rounds(m.words, h, block, t))
  }

  lemma SmallStep<R(!new), W(!new)>(
    m: Machine<R, W>, h: Hash<W>, block: seq<W>, X: seq<W>, s: Hash<R>, g: Range, t: nat, x: R)
    requires Lawful(m) && Before(m, h, block, X, s, t) && m.holds(x, Schedule(m.words, block, t)) && Covers(g, t)
    ensures Before(m, h, block, X[t % 16 := m.narrow(x)], BodyFirst(m.regs, s, g, x), t + 1)
    ensures Before(m, h, block, X[t % 16 := m.narrow(x)], BodyLast(m.regs, s, g, x), t + 1)
  {
    var x' := Schedule(m.words, block, t);
    assert NarrowAt(m, x, x');
    BodiesHeld(m, s, Rounds(m.words, h, block, t), g, t, x, x');
    WindowNext(m.words, block, X, t, x');
  }

  lemma WidenHeld<R(!new), W(!new)>(m: Machine<R, W>, a: W)
    requires Simulates(m)
    ensures m.holds(m.widen(a), a) && m.narrow(m.widen(a)) == a
  {
    assert WidenAt(m, a) && NarrowAt(m, m.widen(a), a);
  }

  // Rounds 0 to 15: the word just loaded
  method LoadBody<R(!new), W(!new)>(
    m: Machine<R, W>, s: Hash<R>, X: array<W>, i: nat, l: W, ghost h: Hash<W>, ghost block: seq<W>)
    returns (s': Hash<R>)
    requires Lawful(m) && i < 16 && Before(m, h, block, X[..], s, i) && l == Schedule(m.words, block, i)
    modifies X
    ensures Before(m, h, block, X[..], s', i + 1)
  {
    WidenHeld(m, l);
    SmallStep(m, h, block, X[..], s, Rounds00_19, i, m.widen(l));
    SameSlot(i, 0);
    ghost var X' := X[..][i := l];
    X[i] := l;
    assert X[..] == X';
    s' := BodyLast(m.regs, s, Rounds00_19, m.widen(l));
  }

  // Xupdate and a BODY macro with the slots the loop gives it; BODY_60_79 adds X[a] last
  method UpdateBody<R(!new), W(!new)>(
    m: Machine<R, W>, s: Hash<R>, X: array<W>, a: nat, b: nat, c: nat, d: nat, g: Range, last: bool,
    ghost t: nat, ghost h: Hash<W>, ghost block: seq<W>)
    returns (s': Hash<R>)
    requires Lawful(m) && t >= 16 && Before(m, h, block, X[..], s, t) && Covers(g, t)
    requires a == t % 16 && b == (t + 2) % 16 && c == (t + 8) % 16 && d == (t + 13) % 16
    modifies X
    ensures Before(m, h, block, X[..], s', t + 1)
  {
    WindowSlots(m.words, block, X[..], t);
    UpdatedHeld(m, X[a], X[b], X[c], X[d]);
    var T := Updated(m, X[a], X[b], X[c], X[d]);
    SmallStep(m, h, block, X[..], s, g, t, T);
    WidenHeld(m, m.narrow(T));
    SmallStep(m, h, block, X[..], s, g, t, m.widen(m.narrow(T)));
    ghost var X' := X[..][a := m.narrow(T)];
    X[a] := m.narrow(T);
    assert X[..] == X';
    s' := if last then BodyLast(m.regs, s, g, m.widen(X[a])) else BodyFirst(m.regs, s, g, T);
  }

  lemma WidenHashHeld<R(!new), W(!new)>(m: Machine<R, W>, h: Hash<W>)
    requires Simulates(m)
    ensures HashHeld(m, WidenHash(m, h), h)
  {
    assert WidenAt(m, h.a) && WidenAt(m, h.b) && WidenAt(m, h.c) && WidenAt(m, h.d) && WidenAt(m, h.e);
  }

  // Sixteen slots: a loop index that is a multiple of 16 away names the same slot.
  lemma SameSlot(i: nat, n: nat)
    ensures (i + 16 * n) % 16 == i % 16
    ensures i < 16 ==> i % 16 == i
  {
  }

  lemma LoadedWord<W>(w: Words<W>, block: seq<W>, t: nat)
    requires |block| == 16
    ensures t < 16 ==> block[t] == block[t % 16] == Schedule(w, block, t)
  {
    if t < 16 { SameSlot(t, 0); }
  }

  // The five loops, one method for each range of rounds that shares a macro.
  method Loop00_15<R(!new), W(!new)>(
    m: Machine<R, W>, s0: Hash<R>, X: array<W>, ghost h: Hash<W>, block: seq<W>)
    returns (s: Hash<R>)
    requires Lawful(m) && Before(m, h, block, X[..], s0, 0)
    modifies X
    ensures Before(m, h, block, X[..], s, 16)
  {
    s := s0;
    var t := 0;
    for i := 0 to 16
      invariant t == i && Before(m, h, block, X[..], s, t)
    {
      LoadedWord(m.words, block, t);
      s := LoadBody(m, s, X, i, block[i], h, block);
      t := t + 1;
    }
  }

  method Loop16_19<R(!new), W(!new)>(
    m: Machine<R, W>, s0: Hash<R>, X: array<W>, ghost h: Hash<W>, ghost block: seq<W>)
    returns (s: Hash<R>)
    requires Lawful(m) && Before(m, h, block, X[..], s0, 16)
    modifies X
    ensures Before(m, h, block, X[..], s, 20)
  {
    s := s0;
    ghost var t := 16;
    for i := 0 to 4
      invariant t == 16 + i && Before(m, h, block, X[..], s, t)
    {
      SameSlot(i, 1);
      SameSlot(i + 2, 1);
      SameSlot(i + 8, 1);
      SameSlot(i + 13, 1);
      s := UpdateBody(m, s, X, i, i + 2, i + 8, (i + 13) % 16, Rounds00_19, false, t, h, block);
      t := t + 1;
    }
  }

  method Loop20_39<R(!new), W(!new)>(
    m: Machine<R, W>, s0: Hash<R>, X: array<W>, ghost h: Hash<W>, ghost block: seq<W>)
    returns (s: Hash<R>)
    requires Lawful(m) && Before(m, h, block, X[..], s0, 20)
    modifies X
    ensures Before(m, h, block, X[..], s, 40)
  {
    s := s0;
    ghost var t := 20;
    for i := 4 to 24
      invariant t == 16 + i && Before(m, h, block, X[..], s, t)
    {
      SameSlot(i, 1);
      SameSlot(i + 2, 1);
      SameSlot(i + 8, 1);
      SameSlot(i + 13, 1);
      s := UpdateBody(m, s, X, i % 16, (i + 2) % 16, (i + 8) % 16, (i + 13) % 16, Rounds20_39, false, t, h, block);
      t := t + 1;
    }
  }

  method Loop40_59<R(!new), W(!new)>(
    m: Machine<R, W>, s0: Hash<R>, X: array<W>, ghost h: Hash<W>, ghost block: seq<W>)
    returns (s: Hash<R>)
    requires Lawful(m) && Before(m, h, block, X[..], s0, 40)
    modifies X
    ensures Before(m, h, block, X[..], s, 60)
  {
    s := s0;
    ghost var t := 40;
    for i := 0 to 20
      invariant t == 40 + i && Before(m, h, block, X[..], s, t)
    {
      SameSlot(i + 8, 2);
      SameSlot(i + 10, 2);
      SameSlot(i, 3);
      SameSlot(i + 5, 3);
      s := UpdateBody(m, s, X, (i + 8) % 16, (i + 10) % 16, i % 16, (i + 5) % 16, Rounds40_59, false, t, h, block);
      t := t + 1;
    }
  }

  method Loop60_79<R(!new), W(!new)>(
    m: Machine<R, W>, s0: Hash<R>, X: array<W>, ghost h: Hash<W>, ghost block: seq<W>)
    returns (s: Hash<R>)
    requires Lawful(m) && Before(m, h, block, X[..], s0, 60)
    modifies X
    ensures Before(m, h, block, X[..], s, 80)
  {
    s := s0;
    ghost var t := 60;
    for i := 4 to 24
      invariant t == 56 + i && Before(m, h, block, X[..], s, t)
    {
      SameSlot(i + 8, 3);
      SameSlot(i + 10, 3);
      SameSlot(i, 4);
      SameSlot(i + 5, 4);
      s := UpdateBody(m, s, X, (i + 8) % 16, (i + 10) % 16, i % 16, (i + 5) % 16, Rounds60_79, true, t, h, block);
      t := t + 1;
    }
  }

  /** One block in the small-footprint version: five loops over a 16-word window. */
  method CompressSmall<R(!new), W(!new)>(m: Machine<R, W>, h: Hash<W>, block: seq<W>) returns (h': Hash<W>)
    requires Lawful(m) && |block| == 16
    ensures h' == Compress(m.words, h, block)
  {
    var s := WidenHash(m, h);
    WidenHashHeld(m, h);
    var X := new W[16](i requires 0 <= i < 16 => block[i]);
    s := Loop00_15(m, s, X, h, block);
    s := Loop16_19(m, s, X, h, block);
    s := Loop20_39(m, s, X, h, block);
    s := Loop40_59(m, s, X, h, block);
    s := Loop60_79(m, s, X, h, block);
    h' := SaveAll(m, h, s);
    SaveIsSum(m, h, s, Rounds(m.words, h, block, 80));
  }
}
