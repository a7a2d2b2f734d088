/** The unrolled version of HASH_BLOCK_DATA_ORDER: eighty macro calls in which the registers
    change roles and the sixteen schedule variables are reused. */
module Sha1Unrolled {
  import opened Sha1Spec
  import opened Sha1Block

  // The six registers.
  const A: nat := 0
  const B: nat := 1
  const C: nat := 2
  const D: nat := 3
  const E: nat := 4
  const T: nat := 5

  datatype Kind = Load | UpdateFirst | UpdateLast

  // One macro call: the F and K it uses, the register each parameter is bound to, its schedule variables.
  // The round number i that the macros also take they do not use.
  datatype Row = Row(kind: Kind, range: Range, a: nat, b: nat, c: nat, d: nat, e: nat, f: nat,
                     xa: nat, xb: nat, xc: nat, xd: nat)
  {
    ghost predicate InRange() {
      a < 6 && b < 6 && c < 6 && d < 6 && e < 6 && f < 6 && xa < 16 && xb < 16 && xc < 16 && xd < 16
    }
  }

  function Body00_15(i: nat, a: nat, b: nat, c: nat, d: nat, e: nat, f: nat, xi: nat): Row {
    Row(Load, Rounds00_19, a, b, c, d, e, f, xi, 0, 0, 0)
  }

  // The macros whose Xupdate writes xi also pass xa, the same variable.

  function Body16_19(i: nat, a: nat, b: nat, c: nat, d: nat, e: nat, f: nat,
    xi: nat, xa: nat, xb: nat, xc: nat, xd: nat): Row
    requires xi == xa
  {
    Row(UpdateFirst, Rounds00_19, a, b, c, d, e, f, xa, xb, xc, xd)
  }

  function Body20_31(i: nat, a: nat, b: nat, c: nat, d: nat, e: nat, f: nat,
    xi: nat, xa: nat, xb: nat, xc: nat, xd: nat): Row
    requires xi == xa
  {
    Row(UpdateFirst, Rounds20_39, a, b, c, d, e, f, xa, xb, xc, xd)
  }

  function Body32_39(i: nat, a: nat, b: nat, c: nat, d: nat, e: nat, f: nat,
    xa: nat, xb: nat, xc: nat, xd: nat): Row
  {
    Row(UpdateFirst, Rounds20_39, a, b, c, d, e, f, xa, xb, xc, xd)
  }

  function Body40_59(i: nat, a: nat, b: nat, c: nat, d: nat, e: nat, f: nat,
    xa: nat, xb: nat, xc: nat, xd: nat): Row
  {
    Row(UpdateFirst, Rounds40_59, a, b, c, d, e, f, xa, xb, xc, xd)
  }

  function Body60_79(i: nat, a: nat, b: nat, c: nat, d: nat, e: nat, f: nat,
    xa: nat, xb: nat, xc: nat, xd: nat): Row
  {
    Row(UpdateLast, Rounds60_79, a, b, c, d, e, f, xa, xb, xc, xd)
  }

  const ROWS_00 := [
    Body00_15(0, A, B, C, D, E, T, 0),
    Body00_15(1, T, A, B, C, D, E, 1),
    Body00_15(2, E, T, A, B, C, D, 2),
    Body00_15(3, D, E, T, A, B, C, 3),
    Body00_15(4, C, D, E, T, A, B, 4),
    Body00_15(5, B, C, D, E, T, A, 5)]

  const ROWS_06 := [
    Body00_15(6, A, B, C, D, E, T, 6),
    Body00_15(7, T, A, B, C, D, E, 7),
    Body00_15(8, E, T, A, B, C, D, 8),
    Body00_15(9, D, E, T, A, B, C, 9),
    Body00_15(10, C, D, E, T, A, B, 10),
    Body00_15(11, B, C, D, E, T, A, 11)]

  const ROWS_12 := [
    Body00_15(12, A, B, C, D, E, T, 12),
    Body00_15(13, T, A, B, C, D, E, 13),
    Body00_15(14, E, T, A, B, C, D, 14),
    Body00_15(15, D, E, T, A, B, C, 15),
    Body16_19(16, C, D, E, T, A, B, 0, 0, 2, 8, 13),
    Body16_19(17, B, C, D, E, T, A, 1, 1, 3, 9, 14)]

  const ROWS_18 := [
    Body16_19(18, A, B, C, D, E, T, 2, 2, 4, 10, 15),
    Body16_19(19, T, A, B, C, D, E, 3, 3, 5, 11, 0),
    Body20_31(20, E, T, A, B, C, D, 4, 4, 6, 12, 1),
    Body20_31(21, D, E, T, A, B, C, 5, 5, 7, 13, 2),
    Body20_31(22, C, D, E, T, A, B, 6, 6, 8, 14, 3),
    Body20_31(23, B, C, D, E, T, A, 7, 7, 9, 15, 4)]

  const ROWS_24 := [
    Body20_31(24, A, B, C, D, E, T, 8, 8, 10, 0, 5),
    Body20_31(25, T, A, B, C, D, E, 9, 9, 11, 1, 6),
    Body20_31(26, E, T, A, B, C, D, 10, 10, 12, 2, 7),
    Body20_31(27, D, E, T, A, B, C, 11, 11, 13, 3, 8),
    Body20_31(28, C, D, E, T, A, B, 12, 12, 14, 4, 9),
    Body20_31(29, B, C, D, E, T, A, 13, 13, 15, 5, 10)]

  const ROWS_30 := [
    Body20_31(30, A, B, C, D, E, T, 14, 14, 0, 6, 11),
    Body20_31(31, T, A, B, C, D, E, 15, 15, 1, 7, 12),
    Body32_39(32, E, T, A, B, C, D, 0, 2, 8, 13),
    Body32_39(33, D, E, T, A, B, C, 1, 3, 9, 14),
    Body32_39(34, C, D, E, T, A, B, 2, 4, 10, 15),
    Body32_39(35, B, C, D, E, T, A, 3, 5, 11, 0)]

  const ROWS_36 := [
    Body32_39(36, A, B, C, D, E, T, 4, 6, 12, 1),
    Body32_39(37, T, A, B, C, D, E, 5, 7, 13, 2),
    Body32_39(38, E, T, A, B, C, D, 6, 8, 14, 3),
    Body32_39(39, D, E, T, A, B, C, 7, 9, 15, 4),
    Body40_59(40, C, D, E, T, A, B, 8, 10, 0, 5),
    Body40_59(41, B, C, D, E, T, A, 9, 11, 1, 6)]

  const ROWS_42 := [
    Body40_59(42, A, B, C, D, E, T, 10, 12, 2, 7),
    Body40_59(43, T, A, B, C, D, E, 11, 13, 3, 8),
    Body40_59(44, E, T, A, B, C, D, 12, 14, 4, 9),
    Body40_59(45, D, E, T, A, B, C, 13, 15, 5, 10),
    Body40_59(46, C, D, E, T, A, B, 14, 0, 6, 11),
    Body40_59(47, B, C, D, E, T, A, 15, 1, 7, 12)]

  const ROWS_48 := [
    Body40_59(48, A, B, C, D, E, T, 0, 2, 8, 13),
    Body40_59(49, T, A, B, C, D, E, 1, 3, 9, 14),
    Body40_59(50, E, T, A, B, C, D, 2, 4, 10, 15),
    Body40_59(51, D, E, T, A, B, C, 3, 5, 11, 0),
    Body40_59(52, C, D, E, T, A, B, 4, 6, 12, 1),
    Body40_59(53, B, C, D, E, T, A, 5, 7, 13, 2)]

  const ROWS_54 := [
    Body40_59(54, A, B, C, D, E, T, 6, 8, 14, 3),
    Body40_59(55, T, A, B, C, D, E, 7, 9, 15, 4),
    Body40_59(56, E, T, A, B, C, D, 8, 10, 0, 5),
    Body40_59(57, D, E, T, A, B, C, 9, 11, 1, 6),
    Body40_59(58, C, D, E, T, A, B, 10, 12, 2, 7),
    Body40_59(59, B, C, D, E, T, A, 11, 13, 3, 8)]

  const ROWS_60 := [
    Body60_79(60, A, B, C, D, E, T, 12, 14, 4, 9),
    Body60_79(61, T, A, B, C, D, E, 13, 15, 5, 10),
    Body60_79(62, E, T, A, B, C, D, 14, 0, 6, 11),
    Body60_79(63, D, E, T, A, B, C, 15, 1, 7, 12),
    Body60_79(64, C, D, E, T, A, B, 0, 2, 8, 13),
    Body60_79(65, B, C, D, E, T, A, 1, 3, 9, 14)]

  const ROWS_66 := [
    Body60_79(66, A, B, C, D, E, T, 2, 4, 10, 15),
    Body60_79(67, T, A, B, C, D, E, 3, 5, 11, 0),
    Body60_79(68, E, T, A, B, C, D, 4, 6, 12, 1),
    Body60_79(69, D, E, T, A, B, C, 5, 7, 13, 2),
    Body60_79(70, C, D, E, T, A, B, 6, 8, 14, 3),
    Body60_79(71, B, C, D, E, T, A, 7, 9, 15, 4)]

  const ROWS_72 := [
    Body60_79(72, A, B, C, D, E, T, 8, 10, 0, 5),
    Body60_79(73, T, A, B, C, D, E, 9, 11, 1, 6),
    Body60_79(74, E, T, A, B, C, D, 10, 12, 2, 7),
    Body60_79(75, D, E, T, A, B, C, 11, 13, 3, 8),
    Body60_79(76, C, D, E, T, A, B, 12, 14, 4, 9),
    Body60_79(77, B, C, D, E, T, A, 13, 15, 5, 10)]

  const ROWS_78 := [
    Body60_79(78, A, B, C, D, E, T, 14, 0, 6, 11),
    Body60_79(79, T, A, B, C, D, E, 15, 1, 7, 12)]

  // The macro call of round t.
  function RowOf(t: nat): Row
    requires t < 80
  {
    if t < 6 then ROWS_00[t - 0]
    else if t < 12 then ROWS_06[t - 6]
    else if t < 18 then ROWS_12[t - 12]
    else if t < 24 then ROWS_18[t - 18]
    else if t < 30 then ROWS_24[t - 24]
    else if t < 36 then ROWS_30[t - 30]
    else if t < 42 then ROWS_36[t - 36]
    else if t < 48 then ROWS_42[t - 42]
    else if t < 54 then ROWS_48[t - 48]
    else if t < 60 then ROWS_54[t - 54]
    else if t < 66 then ROWS_60[t - 60]
    else if t < 72 then ROWS_66[t - 66]
    else if t < 78 then ROWS_72[t - 72]
    else ROWS_78[t - 78]
  }

  /** The pattern the eighty rows follow: in round t the variable a lives in register -t mod 6,
      the others in the registers after it, and schedule word t in slot t mod 16. */
  function RowAt(t: nat): Row {
    var kind := if t < 16 then Load else if t < 60 then UpdateFirst else UpdateLast;
    Row(kind, RangeOf(t), Role(t, 0), Role(t, 1), Role(t, 2), Role(t, 3), Role(t, 4), Role(t, 5), t % 16,
        if t < 16 then 0 else (t + 2) % 16, if t < 16 then 0 else (t + 8) % 16, if t < 16 then 0 else (t + 13) % 16)
  }

  function RangeOf(t: nat): (g: Range)
    ensures Covers(g, t)
  {
    if t < 20 then Rounds00_19 else if t < 40 then Rounds20_39 else if t < 60 then Rounds40_59 else Rounds60_79
  }

  function Role(t: nat, k: nat): (r: nat)
    requires k < 6
    ensures r < 6
  {
    var v := 6 - t % 6 + k;
    if v >= 6 then v - 6 else v
  }

  // Six rows in a row.
  ghost predicate Follow(rows: seq<Row>, t: nat) {
    && |rows| == 6
    && rows[0] == RowAt(t) && rows[1] == RowAt(t + 1) && rows[2] == RowAt(t + 2)
    && rows[3] == RowAt(t + 3) && rows[4] == RowAt(t + 4) && rows[5] == RowAt(t + 5)
  }

  lemma Pick(rows: seq<Row>, t: nat, k: nat)
    requires Follow(rows, t) && k < 6
    ensures rows[k] == RowAt(t + k)
  {
    match k
    case 0 =>
    case 1 =>
    case 2 =>
    case 3 =>
    case 4 =>
    case _ =>
  }

  lemma EarlyRows(t: nat)
    requires t < 24
    ensures RowOf(t) == RowAt(t)
  {
    if t < 6 {
      Pick(ROWS_00, 0, t - 0);
    } else if t < 12 {
      Pick(ROWS_06, 6, t - 6);
    } else if t < 18 {
      Pick(ROWS_12, 12, t - 12);
    } else {
      Pick(ROWS_18, 18, t - 18);
    }
  }

  lemma MiddleRows(t: nat)
    requires 24 <= t < 48
    ensures RowOf(t) == RowAt(t)
  {
    if t < 30 {
      Pick(ROWS_24, 24, t - 24);
    } else if t < 36 {
      Pick(ROWS_30, 30, t - 30);
    } else if t < 42 {
      Pick(ROWS_36, 36, t - 36);
    } else {
      Pick(ROWS_42, 42, t - 42);
    }
  }

  lemma LateRows(t: nat)
    requires 48 <= t < 80
    ensures RowOf(t) == RowAt(t)
  {
    if t < 54 {
      Pick(ROWS_48, 48, t - 48);
    } else if t < 60 {
      Pick(ROWS_54, 54, t - 54);
    } else if t < 66 {
      Pick(ROWS_60, 60, t - 60);
    } else if t < 72 {
      Pick(ROWS_66, 66, t - 66);
    } else if t < 78 {
      Pick(ROWS_72, 72, t - 72);
    } else {
      assert ROWS_78 == [RowAt(78), RowAt(79)];
    }
  }

  /** The table of the eighty macro calls is the pattern. */
  lemma RowsFollowPattern(t: nat)
    requires t < 80
    ensures RowOf(t) == RowAt(t)
  {
    if t < 24 {
      EarlyRows(t);
    } else if t < 48 {
      MiddleRows(t);
    } else {
      LateRows(t);
    }
  }

  /* ---------- execution ---------- */

  // The registers after round t hold the working variables, in the roles of round t.
  ghost predicate InRoles<R, W>(m: Machine<R, W>, regs: seq<R>, t: nat, s: Hash<W>) {
    && |regs| == 6
    && m.holds(regs[Role(t, 0)], s.a) && m.holds(regs[Role(t, 1)], s.b) && m.holds(regs[Role(t, 2)], s.c)
    && m.holds(regs[Role(t, 3)], s.d) && m.holds(regs[Role(t, 4)], s.e)
  }

  ghost predicate WideWindow<R, W>(m: Machine<R, W>, block: seq<W>, X: seq<R>, t: nat)
    requires |block| == 16
  {
    |X| == 16 && forall j: nat {:trigger Schedule(m.words, block, j)} :: j < t <= j + 16 ==>
      m.holds(X[j % 16], Schedule(m.words, block, j))
  }

  // What the macro adds to the schedule word x, and where.
  function Total<R>(r: Registers<R>, kind: Kind, g: Range, s: Hash<R>, x: R): R {
    var k, f := Constant(r, g), Fun(r, g, s.b, s.c, s.d);
    if kind == UpdateFirst then r.add(x, r.add(r.add(r.add(s.e, k), r.rotl5(s.a)), f))
    else r.add(r.add(r.add(r.add(x, s.e), k), r.rotl5(s.a)), f)
  }

  // The sums of the macros in wide registers p, f, e, k and x that hold p', f', e', k' and x'.
  lemma UpdateFirstSum<R(!new), W(!new)>(m: Machine<R, W>, p: R, f: R, e: R, k: R, x: R, p': W, f': W, e': W, k': W, x': W)
    requires Lawful(m) && m.holds(p, p') && m.holds(f, f') && m.holds(e, e') && m.holds(k, k') && m.holds(x, x')
    ensures var r, w := m.regs, m.words;
      m.holds(r.add(x, r.add(r.add(r.add(e, k), p), f)), w.add(w.add(w.add(w.add(p', f'), e'), k'), x'))
  {
    var r, w := m.regs, m.words;
    AddHeld(m, e, k, e', k');
    var ek, ek' := r.add(e, k), w.add(e', k');
    AddHeld(m, ek, p, ek', p');
    var ekp, ekp' := r.add(ek, p), w.add(ek', p');
    AddHeld(m, ekp, f, ekp', f');
    AddHeld(m, x, r.add(ekp, f), x', w.add(ekp', f'));
    assert AddOrderAt(w, p', f', e', k', x');
  }

  lemma UpdateLastSum<R(!new), W(!new)>(m: Machine<R, W>, p: R, f: R, e: R, k: R, x: R, p': W, f': W, e': W, k': W, x': W)
    requires Lawful(m) && m.holds(p, p') && m.holds(f, f') && m.holds(e, e') && m.holds(k, k') && m.holds(x, x')
    ensures var r, w := m.regs, m.words;
      m.holds(r.add(r.add(r.add(r.add(x, e), k), p), f), w.add(w.add(w.add(w.add(p', f'), e'), k'), x'))
  {
    var r, w := m.regs, m.words;
    AddHeld(m, x, e, x', e');
    var xe, xe' := r.add(x, e), w.add(x', e');
    AddHeld(m, xe, k, xe', k');
    var xek, xek' := r.add(xe, k), w.add(xe', k');
    AddHeld(m, xek, p, xek', p');
    AddHeld(m, r.add(xek, p), f, w.add(xek', p'), f');
    assert AddOrderAt(w, p', f', e', k', x');
  }

  lemma TotalHeld<R(!new), W(!new)>(
    m: Machine<R, W>, kind: Kind, g: Range, t: nat, s: Hash<R>, s': Hash<W>, x: R, x': W)
    requires Lawful(m) && HashHeld(m, s, s') && m.holds(x, x') && Covers(g, t)
    ensures m.holds(Total(m.regs, kind, g, s, x), Round(m.words, s', t, x').a)
  {
    var r, w := m.regs, m.words;
    FHeld(m, s, s', g, t);
    RotatesHeld(m, s.a, s'.a);
    ConstantHeld(m, g, t);
    var f, f' := Fun(r, g, s.b, s.c, s.d), F(w, t, s'.b, s'.c, s'.d);
    if kind == UpdateFirst {
      UpdateFirstSum(m, r.rotl5(s.a), f, s.e, Constant(r, g), x, w.rotl5(s'.a), f', s'.e, w.k(t), x');
    } else {
      UpdateLastSum(m, r.rotl5(s.a), f, s.e, Constant(r, g), x, w.rotl5(s'.a), f', s'.e, w.k(t), x');
    }
  }

  lemma RolesRotate(t: nat)
    ensures Role(t + 1, 0) == Role(t, 5) && Role(t + 1, 1) == Role(t, 0) && Role(t + 1, 2) == Role(t, 1)
    ensures Role(t + 1, 3) == Role(t, 2) && Role(t + 1, 4) == Role(t, 3)
    ensures forall j, k :: 0 <= j < k < 6 ==> Role(t, j) != Role(t, k)
  {
  }

  // f receives the new a, b is rotated in place; every other register keeps its content.
  lemma RolesNext<R(!new), W(!new)>(m: Machine<R, W>, regs: seq<R>, t: nat, s: Hash<W>, x: W, a: R)
    requires Lawful(m) && InRoles(m, regs, t, s) && m.holds(a, Round(m.words, s, t, x).a)
    ensures InRoles(m, regs[Role(t, 5) := a][Role(t, 1) := m.regs.rotl30(regs[Role(t, 1)])], t + 1, Round(m.words, s, t, x))
  {
    RolesRotate(t);
    RotatesHeld(m, regs[Role(t, 1)], s.b);
  }

  // The value Xupdate leaves in f and in X[xa], all in wide registers.
  function WideUpdated<R>(r: Registers<R>, X: seq<R>, xa: nat, xb: nat, xc: nat, xd: nat): R
    requires |X| == 16 && xa < 16 && xb < 16 && xc < 16 && xd < 16
  {
    r.rotl1(r.xor(r.xor(r.xor(X[xa], X[xb]), X[xc]), X[xd]))
  }

  lemma WideUpdatedHeld<R(!new), W(!new)>(m: Machine<R, W>, a: R, b: R, c: R, d: R, a': W, b': W, c': W, d': W)
    requires Lawful(m) && m.holds(a, a') && m.holds(b, b') && m.holds(c, c') && m.holds(d, d')
    ensures var r, w := m.regs, m.words;
      m.holds(r.rotl1(r.xor(r.xor(r.xor(a, b), c), d)), w.rotl1(w.xor(w.xor(w.xor(d', c'), b'), a')))
  {
    var r, w := m.regs, m.words;
    XorHeld(m, a, b, a', b');
    var ab, ab' := r.xor(a, b), w.xor(a', b');
    XorHeld(m, ab, c, ab', c');
    var abc, abc' := r.xor(ab, c), w.xor(ab', c');
    XorHeld(m, abc, d, abc', d');
    assert XorOrderAt(w, a', b', c', d');
    RotatesHeld(m, r.xor(abc, d), w.xor(abc', d'));
  }

  lemma WideUpdate<R(!new), W(!new)>(m: Machine<R, W>, block: seq<W>, X: seq<R>, t: nat)
    requires Lawful(m) && |block| == 16 && t >= 16 && WideWindow(m, block, X, t)
    ensures m.holds(WideUpdated(m.regs, X, t % 16, (t + 2) % 16, (t + 8) % 16, (t + 13) % 16),
                    Schedule(m.words, block, t))
  {
    WideWindowSlots(m, block, X, t);
    var w := m.words;
    WideUpdatedHeld(m, X[t % 16], X[(t + 2) % 16], X[(t + 8) % 16], X[(t + 13) % 16],
                    Schedule(w, block, t - 16), Schedule(w, block, t - 14), Schedule(w, block, t - 8),
                    Schedule(w, block, t - 3));
    ScheduleStep(w, block, t);
  }

  lemma ScheduleStep<W>(w: Words<W>, block: seq<W>, t: nat)
    requires |block| == 16 && t >= 16
    ensures Schedule(w, block, t) ==
      w.rotl1(w.xor(w.xor(w.xor(Schedule(w, block, t - 3), Schedule(w, block, t - 8)),
                          Schedule(w, block, t - 14)), Schedule(w, block, t - 16)))
  {
  }

  lemma WideWindowSlots<R, W>(m: Machine<R, W>, block: seq<W>, X: seq<R>, t: nat)
    requires |block| == 16 && t >= 16 && WideWindow(m, block, X, t)
    ensures m.holds(X[t % 16], Schedule(m.words, block, t - 16))
    ensures m.holds(X[(t + 2) % 16], Schedule(m.words, block, t - 14))
    ensures m.holds(X[(t + 8) % 16], Schedule(m.words, block, t - 8))
    ensures m.holds(X[(t + 13) % 16], Schedule(m.words, block, t - 3))
  {
    Slots(t);
  }

  lemma WideWindowNext<R, W>(m: Machine<R, W>, block: seq<W>, X: seq<R>, t: nat, x: R)
    requires |block| == 16 && WideWindow(m, block, X, t) && m.holds(x, Schedule(m.words, block, t))
    ensures WideWindow(m, block, X[t % 16 := x], t + 1)
  {
    forall j: nat {:trigger Schedule(m.words, block, j)} | j < t + 1 <= j + 16
      ensures m.holds(X[t % 16 := x][j % 16], Schedule(m.words, block, j))
    {
      if j < t { OtherSlot(j, t); }
    }
  }

  ghost predicate BeforeRow<R, W>(m: Machine<R, W>, h: Hash<W>, block: seq<W>, X: seq<R>, regs: seq<R>, t: nat) {
    |block| == 16 && WideWindow(m, block, X, t) && InRoles(m, regs, t, Rounds(m.words, h, block, t))
  }

  // The registers a row names, in the order of the working variables.
  function RowVars<R>(regs: seq<R>, row: Row): Hash<R>
    requires |regs| == 6 && row.a < 6 && row.b < 6 && row.c < 6 && row.d < 6 && row.e < 6
  {
    Hash(regs[row.a], regs[row.b], regs[row.c], regs[row.d], regs[row.e])
  }

  // The variables of the schedule are registers, or words of an array when MD32_XARRAY is set.
  function Kept<R, W>(m: Machine<R, W>, xarray: bool, x: R): R {
    if xarray then m.widen(m.narrow(x)) else x
  }

  lemma KeptHeld<R(!new), W(!new)>(m: Machine<R, W>, xarray: bool, x: R, a: W)
    requires Simulates(m) && m.holds(x, a)
    ensures m.holds(Kept(m, xarray, x), a)
  {
    assert NarrowAt(m, x, a);
    WidenHeld(m, a);
  }

  // What the macro adds: what Xupdate left in f, or the variable it is kept in.
  function Summand<R, W>(m: Machine<R, W>, xarray: bool, kind: Kind, x: R): R {
    if kind == UpdateFirst then x else Kept(m, xarray, x)
  }

  lemma RowStep<R(!new), W(!new)>(
    m: Machine<R, W>, xarray: bool, h: Hash<W>, block: seq<W>, X: seq<R>, regs: seq<R>, t: nat, x: R)
    requires Lawful(m) && BeforeRow(m, h, block, X, regs, t) && m.holds(x, Schedule(m.words, block, t))
    ensures var row := RowAt(t);
      var new_a := Total(m.regs, row.kind, row.range, RowVars(regs, row), Summand(m, xarray, row.kind, x));
      BeforeRow(m, h, block, X[t % 16 := Kept(m, xarray, x)],
                regs[row.f := new_a][row.b := m.regs.rotl30(regs[row.b])], t + 1)
  {
    var row, s, w := RowAt(t), Rounds(m.words, h, block, t), Schedule(m.words, block, t);
    KeptHeld(m, xarray, x, w);
    var y := Summand(m, xarray, row.kind, x);
    TotalHeld(m, row.kind, row.range, t, RowVars(regs, row), s, y, w);
    RolesNext(m, regs, t, s, w, Total(m.regs, row.kind, row.range, RowVars(regs, row), y));
    WideWindowNext(m, block, X, t, Kept(m, xarray, x));
  }

  // The schedule variable of the round: the word just loaded, or what Xupdate computes.
  function Fetch<R, W>(m: Machine<R, W>, row: Row, l: W, X: seq<R>): R
    requires |X| == 16 && row.xa < 16 && row.xb < 16 && row.xc < 16 && row.xd < 16
  {
    if row.kind == Load then m.widen(l) else WideUpdated(m.regs, X, row.xa, row.xb, row.xc, row.xd)
  }

  lemma FetchHeld<R(!new), W(!new)>(m: Machine<R, W>, block: seq<W>, X: seq<R>, l: W, t: nat)
    requires Lawful(m) && |block| == 16 && WideWindow(m, block, X, t)
    requires t < 16 ==> l == Schedule(m.words, block, t)
    ensures m.holds(Fetch(m, RowAt(t), l, X), Schedule(m.words, block, t))
  {
    if t < 16 { WidenHeld(m, l); } else { WideUpdate(m, block, X, t); }
  }

  /** Executes a macro call on the registers and schedule variables in place. */
  method Execute<R, W>(m: Machine<R, W>, xarray: bool, row: Row, l: W, regs: array<R>, X: array<R>)
    requires regs != X && regs.Length == 6 && X.Length == 16 && row.InRange() && row.f != row.b
    modifies regs, X
    ensures X[..] == old(X[..])[row.xa := Kept(m, xarray, Fetch(m, row, l, old(X[..])))]
    ensures regs[..] == old(regs[..])
      [row.f := Total(m.regs, row.kind, row.range, RowVars(old(regs[..]), row),
                      Summand(m, xarray, row.kind, Fetch(m, row, l, old(X[..]))))]
      [row.b := m.regs.rotl30(old(regs[row.b]))]
  {
    var x := Fetch(m, row, l, X[..]);
    var a := Total(m.regs, row.kind, row.range, RowVars(regs[..], row), Summand(m, xarray, row.kind, x));
    X[row.xa] := Kept(m, xarray, x);
    regs[row.f] := a;
    regs[row.b] := m.regs.rotl30(regs[row.b]);
  }

  lemma ExecuteStep<R(!new), W(!new)>(
    m: Machine<R, W>, xarray: bool, h: Hash<W>, block: seq<W>, X: seq<R>, regs: seq<R>, t: nat, l: W)
    requires Lawful(m) && BeforeRow(m, h, block, X, regs, t)
    requires t < 16 ==> l == Schedule(m.words, block, t)
    ensures var row, x := RowAt(t), Fetch(m, RowAt(t), l, X);
      && row.InRange() && row.f != row.b
      && BeforeRow(m, h, block, X[row.xa := Kept(m, xarray, x)],
           regs[row.f := Total(m.regs, row.kind, row.range, RowVars(regs, row), Summand(m, xarray, row.kind, x))]
               [row.b := m.regs.rotl30(regs[row.b])], t + 1)
  {
    FetchHeld(m, block, X, l, t);
    RowStep(m, xarray, h, block, X, regs, t, Fetch(m, RowAt(t), l, X));
    RolesRotate(t);
  }

  // Rounds 0 to 79: the macro calls in order.
  method AllRows<R(!new), W(!new)>(m: Machine<R, W>, xarray: bool, ghost h: Hash<W>, block: seq<W>, regs: array<R>,
                                   X: array<R>)
    requires Lawful(m) && regs != X && BeforeRow(m, h, block, X[..], regs[..], 0)
    modifies regs, X
    ensures BeforeRow(m, h, block, X[..], regs[..], ROUNDS)
  {
    for t := 0 to ROUNDS
      invariant BeforeRow(m, h, block, X[..], regs[..], t)
    {
      LoadedWord(m.words, block, t);
      RowsFollowPattern(t);
      ExecuteStep(m, xarray, h, block, X[..], regs[..], t, block[t % 16]);
      Execute(m, xarray, RowOf(t), block[t % 16], regs, X);
    }
  }

  /** One block in the unrolled version, given its sixteen words as either branch loads them. */
  method CompressUnrolled<R(!new), W(!new)>(m: Machine<R, W>, xarray: bool, h: Hash<W>, block: seq<W>) returns (h': Hash<W>)
    requires Lawful(m) && |block| == 16
    ensures h' == Compress(m.words, h, block)
  {
    WidenHashHeld(m, h);
    var s := WidenHash(m, h);
    var regs, X := new R[6](_ => s.a), new R[16](_ => s.a);
    regs[A], regs[B], regs[C], regs[D], regs[E] := s.a, s.b, s.c, s.d, s.e;
    AllRows(m, xarray, h, block, regs, X);
    var last := Hash(regs[E], regs[T], regs[A], regs[B], regs[C]);
    h' := SaveAll(m, h, last);
    SaveIsSum(m, h, last, Rounds(m.words, h, block, ROUNDS));
  }
}
