/** One MD5 step taken forwards and backwards in the forms the two-block search writes
    them, the tests the search makes at each step, and what a full set of solved steps
    means. */
module Md5Path {
  import opened Md5Spec

  // The search writes F with two operations fewer, and G as F with its arguments turned.
  function FForm(x: Word, y: Word, z: Word): Word { W(z.bits ^ (x.bits & (y.bits ^ z.bits))) }
  function GForm(x: Word, y: Word, z: Word): Word { FForm(z, x, y) }

  function MixForm(i: nat, x: Word, y: Word, z: Word): Word
    requires i < 64
  {
    if i < 16 then FForm(x, y, z) else if i < 32 then GForm(x, y, z)
    else if i < 48 then H(x, y, z) else I(x, y, z)
  }

  lemma FFormIsF(x: Word, y: Word, z: Word)
    ensures FForm(x, y, z) == F(x, y, z)
  {
    assert FForm(x, y, z).bits == F(x, y, z).bits;
  }

  lemma GFormIsG(x: Word, y: Word, z: Word)
    ensures GForm(x, y, z) == G(x, y, z)
  {
    assert GForm(x, y, z).bits == G(x, y, z).bits;
  }

  lemma MixForms(i: nat, x: Word, y: Word, z: Word)
    requires i < 64
    ensures MixForm(i, x, y, z) == Mix(i, x, y, z)
  {
    FFormIsF(x, y, z);
    GFormIsG(x, y, z);
    hide F, G, H, I, FForm, GForm;
  }

  predicate IsAmount(s: nat) {
    s in {4, 5, 6, 7, 9, 10, 11, 12, 14, 15, 16, 17, 20, 21, 22, 23}
  }

  // Rotation by an amount, named so that the two forms can be compared amount by amount.
  function RotL(x: bv32, s: nat): bv32
    requires s < 32
  {
    x.RotateLeft(s)
  }

  function RotR(x: bv32, s: nat): bv32
    requires s < 32
  {
    x.RotateRight(s)
  }

  /** The macro RL, written out for every amount that a step uses. */
  function RL(x: bv32, s: nat): bv32
    requires IsAmount(s)
  {
    if s == 4 then (x << 4) | (x >> 28)
    else if s == 5 then (x << 5) | (x >> 27)
    else if s == 6 then (x << 6) | (x >> 26)
    else if s == 7 then (x << 7) | (x >> 25)
    else if s == 9 then (x << 9) | (x >> 23)
    else if s == 10 then (x << 10) | (x >> 22)
    else if s == 11 then (x << 11) | (x >> 21)
    else if s == 12 then (x << 12) | (x >> 20)
    else if s == 14 then (x << 14) | (x >> 18)
    else if s == 15 then (x << 15) | (x >> 17)
    else if s == 16 then (x << 16) | (x >> 16)
    else if s == 17 then (x << 17) | (x >> 15)
    else if s == 20 then (x << 20) | (x >> 12)
    else if s == 21 then (x << 21) | (x >> 11)
    else if s == 22 then (x << 22) | (x >> 10)
    else (x << 23) | (x >> 9)
  }

  /** The macro RR. */
  function RR(x: bv32, s: nat): bv32
    requires IsAmount(s)
  {
    if s == 4 then (x >> 4) | (x << 28)
    else if s == 5 then (x >> 5) | (x << 27)
    else if s == 6 then (x >> 6) | (x << 26)
    else if s == 7 then (x >> 7) | (x << 25)
    else if s == 9 then (x >> 9) | (x << 23)
    else if s == 10 then (x >> 10) | (x << 22)
    else if s == 11 then (x >> 11) | (x << 21)
    else if s == 12 then (x >> 12) | (x << 20)
    else if s == 14 then (x >> 14) | (x << 18)
    else if s == 15 then (x >> 15) | (x << 17)
    else if s == 16 then (x >> 16) | (x << 16)
    else if s == 17 then (x >> 17) | (x << 15)
    else if s == 20 then (x >> 20) | (x << 12)
    else if s == 21 then (x >> 21) | (x << 11)
    else if s == 22 then (x >> 22) | (x << 10)
    else (x >> 23) | (x << 9)
  }

  lemma Macros4To7(x: bv32)
    ensures RL(x, 4) == RotL(x, 4) && RR(x, 4) == RotR(x, 4)
    ensures RL(x, 5) == RotL(x, 5) && RR(x, 5) == RotR(x, 5)
    ensures RL(x, 6) == RotL(x, 6) && RR(x, 6) == RotR(x, 6)
    ensures RL(x, 7) == RotL(x, 7) && RR(x, 7) == RotR(x, 7)
  {
  }

  lemma Macros9To12(x: bv32)
    ensures RL(x, 9) == RotL(x, 9) && RR(x, 9) == RotR(x, 9)
    ensures RL(x, 10) == RotL(x, 10) && RR(x, 10) == RotR(x, 10)
    ensures RL(x, 11) == RotL(x, 11) && RR(x, 11) == RotR(x, 11)
    ensures RL(x, 12) == RotL(x, 12) && RR(x, 12) == RotR(x, 12)
  {
  }

  lemma Macros14To17(x: bv32)
    ensures RL(x, 14) == RotL(x, 14) && RR(x, 14) == RotR(x, 14)
    ensures RL(x, 15) == RotL(x, 15) && RR(x, 15) == RotR(x, 15)
    ensures RL(x, 16) == RotL(x, 16) && RR(x, 16) == RotR(x, 16)
    ensures RL(x, 17) == RotL(x, 17) && RR(x, 17) == RotR(x, 17)
  {
  }

  lemma Macros20To23(x: bv32)
    ensures RL(x, 20) == RotL(x, 20) && RR(x, 20) == RotR(x, 20)
    ensures RL(x, 21) == RotL(x, 21) && RR(x, 21) == RotR(x, 21)
    ensures RL(x, 22) == RotL(x, 22) && RR(x, 22) == RotR(x, 22)
    ensures RL(x, 23) == RotL(x, 23) && RR(x, 23) == RotR(x, 23)
  {
  }

  /** For every amount that a step uses the macros are rotations. */
  lemma RotationMacros(x: bv32, s: nat)
    requires IsAmount(s)
    ensures RL(x, s) == RotL(x, s) && RR(x, s) == RotR(x, s)
  {
    if s < 8 { Macros4To7(x); } else if s < 13 { Macros9To12(x); }
    else if s < 18 { Macros14To17(x); } else { Macros20To23(x); }
    hide RL, RR, RotL, RotR;
  }

  lemma ShiftIsAmount(i: nat)
    requires i < 64
    ensures IsAmount(Shift(i))
  {
  }

  // The sums and differences around the rotations.
  function Sum(p: bv32, q: bv32, x: bv32, t: bv32): bv32 { p + q + x + t }
  function Plus(u: bv32, b: bv32): bv32 { u + b }
  function Diff(u: bv32, b: bv32): bv32 { u - b }
  function Rest(u: bv32, mix: bv32, a: bv32, t: bv32): bv32 { u - mix - a - t }

  /** RL(mix + a + x + t, s) + b, as the search adds it up. */
  function ForwardBits(a: bv32, b: bv32, mix: bv32, x: bv32, s: nat, t: bv32): bv32
    requires IsAmount(s)
  {
    Plus(RL(Sum(mix, a, x, t), s), b)
  }

  /** RR(out - b, s) - mix - a - t: the message word that makes the step output `out`. */
  function BackwardBits(a: bv32, b: bv32, mix: bv32, out: bv32, s: nat, t: bv32): bv32
    requires IsAmount(s)
  {
    Rest(RR(Diff(out, b), s), mix, a, t)
  }

  lemma SumsAgree(a: bv32, mix: bv32, x: bv32, t: bv32)
    ensures Sum(mix, a, x, t) == Sum(a, mix, x, t)
  {
  }

  lemma CombineUnfolds(a: bv32, b: bv32, mix: bv32, x: bv32, s: nat, t: bv32)
    requires s < 32
    ensures CombineBits(a, b, mix, x, s, t) == Plus(RotL(Sum(a, mix, x, t), s), b)
  {
    calc {
      CombineBits(a, b, mix, x, s, t);
      (a + mix + x + t).RotateLeft(s) + b;
      RotL(a + mix + x + t, s) + b;
      Plus(RotL(a + mix + x + t, s), b);
      Plus(RotL(Sum(a, mix, x, t), s), b);
    }
  }

  lemma ForwardBitsCombine(a: bv32, b: bv32, mix: bv32, x: bv32, s: nat, t: bv32)
    requires IsAmount(s)
    ensures ForwardBits(a, b, mix, x, s, t) == CombineBits(a, b, mix, x, s, t)
  {
    hide RL, RR, RotL, RotR, Sum, Plus, CombineBits;
    RotationMacros(Sum(mix, a, x, t), s);
    SumsAgree(a, mix, x, t);
    CombineUnfolds(a, b, mix, x, s, t);
  }

  lemma BackwardUnfolds(a: bv32, b: bv32, mix: bv32, out: bv32, s: nat, t: bv32)
    requires IsAmount(s)
    ensures BackwardBits(a, b, mix, out, s, t) == Rest(RotR(Diff(out, b), s), mix, a, t)
  {
    hide RL, RR, RotL, RotR, Rest, Diff;
    RotationMacros(Diff(out, b), s);
  }

  lemma RotatesBack(u: bv32, s: nat)
    requires s < 32
    ensures u.RotateLeft(s).RotateRight(s) == u && u.RotateRight(s).RotateLeft(s) == u
  {
  }

  lemma RotateBack(u: bv32, s: nat)
    requires s < 32
    ensures RotR(RotL(u, s), s) == u && RotL(RotR(u, s), s) == u
  {
    RotatesBack(u, s);
    assert RotL(u, s) == u.RotateLeft(s) && RotR(u, s) == u.RotateRight(s);
    assert RotR(u.RotateLeft(s), s) == u.RotateLeft(s).RotateRight(s);
    assert RotL(u.RotateRight(s), s) == u.RotateRight(s).RotateLeft(s);
  }

  lemma AddsBack(u: bv32, b: bv32)
    ensures (u + b) - b == u && (u - b) + b == u
  {
  }

  lemma DiffOfPlus(u: bv32, b: bv32)
    ensures Diff(Plus(u, b), b) == u
  {
    calc {
      Diff(Plus(u, b), b);
      Diff(u + b, b);
      (u + b) - b;
      { AddsBack(u, b); }
      u;
    }
  }

  lemma PlusOfDiff(u: bv32, b: bv32)
    ensures Plus(Diff(u, b), b) == u
  {
    calc {
      Plus(Diff(u, b), b);
      Plus(u - b, b);
      (u - b) + b;
      { AddsBack(u, b); }
      u;
    }
  }

  lemma SumsBack(a: bv32, mix: bv32, x: bv32, t: bv32)
    ensures (a + mix + x + t) - mix - a - t == x
  {
  }

  lemma RestsBack(a: bv32, mix: bv32, x: bv32, t: bv32)
    ensures a + mix + (x - mix - a - t) + t == x
  {
  }

  lemma SumRest(a: bv32, mix: bv32, x: bv32, t: bv32)
    ensures Rest(Sum(a, mix, x, t), mix, a, t) == x
  {
    calc {
      Rest(Sum(a, mix, x, t), mix, a, t);
      Rest(a + mix + x + t, mix, a, t);
      (a + mix + x + t) - mix - a - t;
      { SumsBack(a, mix, x, t); }
      x;
    }
  }

  lemma RestSum(a: bv32, mix: bv32, x: bv32, t: bv32)
    ensures Sum(a, mix, Rest(x, mix, a, t), t) == x
  {
    calc {
      Sum(a, mix, Rest(x, mix, a, t), t);
      Sum(a, mix, x - mix - a - t, t);
      a + mix + (x - mix - a - t) + t;
      { RestsBack(a, mix, x, t); }
      x;
    }
  }

  lemma BackwardUndoesForward(a: bv32, b: bv32, mix: bv32, x: bv32, s: nat, t: bv32)
    requires IsAmount(s)
    ensures BackwardBits(a, b, mix, CombineBits(a, b, mix, x, s, t), s, t) == x
  {
    hide BackwardBits, CombineBits, RotL, RotR, Sum, Plus, Diff, Rest;
    var out := CombineBits(a, b, mix, x, s, t);
    CombineUnfolds(a, b, mix, x, s, t);
    BackwardUnfolds(a, b, mix, out, s, t);
    DiffOfPlus(RotL(Sum(a, mix, x, t), s), b);
    RotateBack(Sum(a, mix, x, t), s);
    SumRest(a, mix, x, t);
  }

  lemma ForwardUndoesBackward(a: bv32, b: bv32, mix: bv32, out: bv32, s: nat, t: bv32)
    requires IsAmount(s)
    ensures CombineBits(a, b, mix, BackwardBits(a, b, mix, out, s, t), s, t) == out
  {
    hide BackwardBits, CombineBits, RotL, RotR, Sum, Plus, Diff, Rest;
    var u := RotR(Diff(out, b), s);
    var x := Rest(u, mix, a, t);
    BackwardUnfolds(a, b, mix, out, s, t);
    CombineUnfolds(a, b, mix, x, s, t);
    RestSum(a, mix, u, t);
    RotateBack(Diff(out, b), s);
    PlusOfDiff(out, b);
  }

  /** The word, the amount and the constant that the search writes out for each step. */
  datatype Row = Row(word: nat, amount: nat, constant: bv32)

  const ROWS1: seq<Row> := [
    Row(0, 7, 0xd76aa478), Row(1, 12, 0xe8c7b756), Row(2, 17, 0x242070db), Row(3, 22, 0xc1bdceee),
    Row(4, 7, 0xf57c0faf), Row(5, 12, 0x4787c62a), Row(6, 17, 0xa8304613), Row(7, 22, 0xfd469501),
    Row(8, 7, 0x698098d8), Row(9, 12, 0x8b44f7af), Row(10, 17, 0xffff5bb1), Row(11, 22, 0x895cd7be),
    Row(12, 7, 0x6b901122), Row(13, 12, 0xfd987193), Row(14, 17, 0xa679438e), Row(15, 22, 0x49b40821)]

  const ROWS2: seq<Row> := [
    Row(1, 5, 0xf61e2562), Row(6, 9, 0xc040b340), Row(11, 14, 0x265e5a51), Row(0, 20, 0xe9b6c7aa),
    Row(5, 5, 0xd62f105d), Row(10, 9, 0x02441453), Row(15, 14, 0xd8a1e681), Row(4, 20, 0xe7d3fbc8),
    Row(9, 5, 0x21e1cde6), Row(14, 9, 0xc33707d6), Row(3, 14, 0xf4d50d87), Row(8, 20, 0x455a14ed),
    Row(13, 5, 0xa9e3e905), Row(2, 9, 0xfcefa3f8), Row(7, 14, 0x676f02d9), Row(12, 20, 0x8d2a4c8a)]

  const ROWS3: seq<Row> := [
    Row(5, 4, 0xfffa3942), Row(8, 11, 0x8771f681), Row(11, 16, 0x6d9d6122), Row(14, 23, 0xfde5380c),
    Row(1, 4, 0xa4beea44), Row(4, 11, 0x4bdecfa9), Row(7, 16, 0xf6bb4b60), Row(10, 23, 0xbebfbc70),
    Row(13, 4, 0x289b7ec6), Row(0, 11, 0xeaa127fa), Row(3, 16, 0xd4ef3085), Row(6, 23, 0x04881d05),
    Row(9, 4, 0xd9d4d039), Row(12, 11, 0xe6db99e5), Row(15, 16, 0x1fa27cf8), Row(2, 23, 0xc4ac5665)]

  const ROWS4: seq<Row> := [
    Row(0, 6, 0xf4292244), Row(7, 10, 0x432aff97), Row(14, 15, 0xab9423a7), Row(5, 21, 0xfc93a039),
    Row(12, 6, 0x655b59c3), Row(3, 10, 0x8f0ccc92), Row(10, 15, 0xffeff47d), Row(1, 21, 0x85845dd1),
    Row(8, 6, 0x6fa87e4f), Row(15, 10, 0xfe2ce6e0), Row(6, 15, 0xa3014314), Row(13, 21, 0x4e0811a1),
    Row(4, 6, 0xf7537e82), Row(11, 10, 0xbd3af235), Row(2, 15, 0x2ad7d2bb), Row(9, 21, 0xeb86d391)]

  function RowOf(i: nat): Row
    requires i < 64
  {
    if i < 16 then ROWS1[i] else if i < 32 then ROWS2[i - 16]
    else if i < 48 then ROWS3[i - 32] else ROWS4[i - 48]
  }

  lemma Rows1(i: nat)
    requires i < 16
    ensures ROWS1[i] == Row(WordIndex(i), Shift(i), T(i))
  {
  }

  lemma Rows2(i: nat)
    requires 16 <= i < 32
    ensures ROWS2[i - 16] == Row(WordIndex(i), Shift(i), T(i))
  {
  }

  lemma Rows3(i: nat)
    requires 32 <= i < 48
    ensures ROWS3[i - 32] == Row(WordIndex(i), Shift(i), T(i))
  {
  }

  lemma Rows4(i: nat)
    requires 48 <= i < 64
    ensures ROWS4[i - 48] == Row(WordIndex(i), Shift(i), T(i))
  {
  }

  /** What the search writes out is what RFC 1321 computes or tabulates. */
  lemma RowsAgree(i: nat)
    requires i < 64
    ensures RowOf(i) == Row(WordIndex(i), Shift(i), T(i))
  {
    if i < 16 { Rows1(i); } else if i < 32 { Rows2(i); } else if i < 48 { Rows3(i); } else { Rows4(i); }
    hide WordIndex, Shift, T;
  }

  /** The output of step i, computed forwards. */
  function Forward(i: nat, a: Word, b: Word, c: Word, d: Word, x: Word): Word
    requires i < 64
  {
    RowsAgree(i);
    ShiftIsAmount(i);
    W(ForwardBits(a.bits, b.bits, MixForm(i, b, c, d).bits, x.bits, RowOf(i).amount, RowOf(i).constant))
  }

  /** The message word of step i, computed backwards from its output. */
  function Backward(i: nat, a: Word, b: Word, c: Word, d: Word, out: Word): Word
    requires i < 64
  {
    RowsAgree(i);
    ShiftIsAmount(i);
    W(BackwardBits(a.bits, b.bits, MixForm(i, b, c, d).bits, out.bits, RowOf(i).amount, RowOf(i).constant))
  }

  lemma ForwardIsStep(i: nat, a: Word, b: Word, c: Word, d: Word, x: Word)
    requires i < 64
    ensures Forward(i, a, b, c, d, x) == StepOut(i, a, b, c, d, x)
  {
    hide Mix, MixForm, T, Shift, ForwardBits, CombineBits, RowOf, WordIndex;
    RowsAgree(i);
    ShiftIsAmount(i);
    MixForms(i, b, c, d);
    ForwardBitsCombine(a.bits, b.bits, Mix(i, b, c, d).bits, x.bits, Shift(i), T(i));
  }

  /** Each step is a bijection between its message word and its output, and the backward
      formula is the inverse. */
  lemma StepInverse(i: nat, a: Word, b: Word, c: Word, d: Word, x: Word, out: Word)
    requires i < 64
    ensures StepOut(i, a, b, c, d, x) == out <==> x == Backward(i, a, b, c, d, out)
  {
    hide Mix, MixForm, T, Shift, BackwardBits, CombineBits, RowOf, WordIndex;
    RowsAgree(i);
    ShiftIsAmount(i);
    MixForms(i, b, c, d);
    var m := Mix(i, b, c, d).bits;
    BackwardUndoesForward(a.bits, b.bits, m, x.bits, Shift(i), T(i));
    ForwardUndoesBackward(a.bits, b.bits, m, out.bits, Shift(i), T(i));
  }

  // ---------------------------------------------------------------------------------
  // Solved steps. Steps count from 1 here, as the search's arrays do: q[i] is the output
  // of step i, and the chaining value stands in for the outputs before step 1.

  datatype Chain = Chain(h: Regs, q: seq<Word>)
  type Block = x: seq<Word> | |x| == 16 witness seq(16, _ => W(0))

  predicate WellSized(c: Chain) { |c.q| == 65 }

  function At(c: Chain, i: int): Word
    requires WellSized(c) && -3 <= i <= 64
  {
    if i >= 1 then c.q[i] else if i == 0 then c.h.b else if i == -1 then c.h.c
    else if i == -2 then c.h.d else c.h.a
  }

  /** Output i is what MD5 computes from the four outputs before it and its message word. */
  ghost predicate Solved1(c: Chain, x: Block, i: int)
    requires WellSized(c) && 1 <= i <= 64
  {
    c.q[i] == StepOut(i - 1, At(c, i - 4), At(c, i - 1), At(c, i - 2), At(c, i - 3), x[WordIndex(i - 1)])
  }

  function RegsAt(c: Chain, n: nat): Regs
    requires WellSized(c) && n <= 64
  {
    Regs(At(c, n - 3), At(c, n), At(c, n - 1), At(c, n - 2))
  }

  lemma {:induction false} SolvedIsRounds(c: Chain, x: Block, n: nat)
    requires WellSized(c) && n <= 64
    requires forall i | 1 <= i <= n :: Solved1(c, x, i)
    ensures Rounds(c.h, x, 0, n) == RegsAt(c, n)
  {
    if n > 0 {
      SolvedIsRounds(c, x, n - 1);
      assert Solved1(c, x, n);
      hide StepOut, WordIndex;
    }
  }

  /** 64 solved steps are one run of the compression function. */
  lemma SolvedIsCompress(c: Chain, x: Block)
    requires WellSized(c) && forall i | 1 <= i <= 64 :: Solved1(c, x, i)
    ensures Compress(c.h, x)
         == Regs(Add(c.h.a, c.q[61]), Add(c.h.b, c.q[64]), Add(c.h.c, c.q[63]), Add(c.h.d, c.q[62]))
  {
    hide Rounds, Solved1;
    SolvedIsRounds(c, x, 64);
  }

  // ---------------------------------------------------------------------------------
  // The two messages side by side, and the tests of the search.

  /** Chain 0 and chain 1 of one block, with the sixteen words each compresses. */
  datatype Lanes = Lanes(c0: Chain, c1: Chain, x0: Block, x1: Block)

  predicate Sized(s: Lanes) { WellSized(s.c0) && WellSized(s.c1) }

  ghost predicate Solved(s: Lanes, lo: int, hi: int)
    requires Sized(s)
  {
    forall i | lo <= i <= hi && 1 <= i <= 64 :: Solved1(s.c0, s.x0, i) && Solved1(s.c1, s.x1, i)
  }

  /** The XOR the search demands between message words k of the two messages. */
  function WordDelta(k: int): bv32 {
    if k == 4 || k == 14 then 0x80000000 else if k == 11 then 0x00008000 else 0
  }

  predicate Paired1(s: Lanes, k: int)
    requires 0 <= k < 16
  {
    Xor(s.x0[k], s.x1[k]) == WordDelta(k)
  }

  ghost predicate Paired(s: Lanes, lo: int, hi: int) {
    forall k | lo <= k <= hi && 0 <= k < 16 :: Paired1(s, k)
  }

  /** How a random word is shaped into a step output: bits set, bits cleared, bits copied
      from the previous output, and what is subtracted for the other message. */
  datatype Masks = Masks(set1: bv32, clear: bv32, copy: bv32, delta: bv32)

  predicate IsPick(second: bool, i: int) {
    if second then 1 <= i <= 16 else 3 <= i <= 17 || i == 20
  }

  function PickMasks(second: bool, i: int): Masks {
    if second then PickMasks2(i) else PickMasks1(i)
  }

  function PickMasks1(i: int): Masks {
    if i == 3 then Masks(0, 0x00800040, 0, 0)
    else if i == 4 then Masks(0x80080800, 0x00800040, 0x0077f780, 0)
    else if i == 5 then Masks(0x88400025, 0x02bfffc0, 0, 0x00000040)
    else if i == 6 then Masks(0x027fbc41, 0x888043a4, 0x7500001a, 0x7f800040)
    else if i == 7 then Masks(0x03fef820, 0xfc0107df, 0, 0x07800041)
    else if i == 8 then Masks(0x01910540, 0xfe0eaabf, 0, 0x00827fff)
    else if i == 9 then Masks(0xfb102f3d, 0x040f80c2, 0x00001000, 0x8000003f)
    else if i == 10 then Masks(0x401f9040, 0x80802183, 0, 0x7ffff000)
    else if i == 11 then Masks(0x000180c2, 0xc00e3101, 0x00004000, 0x40000000)
    else if i == 12 then Masks(0x00081100, 0xc007e080, 0x03000000, 0x80002080)
    else if i == 13 then Masks(0x410fe008, 0x82000180, 0, 0x7f000000)
    else if i == 14 then Masks(0x000be188, 0xa3040000, 0, 0x80000000)
    else if i == 15 then Masks(0x21008000, 0x82000008, 0, 0x80007ff8)
    else if i == 16 then Masks(0x20000000, 0x80000000, 0, 0xa0000000)
    else if i == 17 then Masks(0, 0x80020000, 0x00008008, 0x80000000)
    else Masks(0, 0x80000000, 0, 0x80000000)
  }

  function PickMasks2(i: int): Masks {
    if i == 1 then Masks(0x84200000, 0x0a000820, 0, 0x7e000000)
    else if i == 2 then Masks(0x8c000800, 0x02208026, 0x701f10c0, 0x7dffffe0)
    else if i == 3 then Masks(0xbe1f0966, 0x40201080, 0x00000018, 0x7dfef7e0)
    else if i == 4 then Masks(0xba040010, 0x443b19ee, 0x00000601, 0x7dffffe2)
    else if i == 5 then Masks(0x482f0e50, 0xb41011af, 0, 0x7ffffcbf)
    else if i == 6 then Masks(0x04220c56, 0x9a1113a9, 0, 0x80110000)
    else if i == 7 then Masks(0x96011e01, 0x083201c0, 0x01808000, 0x88000040)
    else if i == 8 then Masks(0x843283c0, 0x1b810001, 0x00000002, 0x80818000)
    else if i == 9 then Masks(0x9c0101c1, 0x03828202, 0x00001000, 0x7fffffbf)
    else if i == 10 then Masks(0x878383c0, 0x00041003, 0, 0x7ffff000)
    else if i == 11 then Masks(0x800583c3, 0x00021000, 0x00086000, 0x80000000)
    else if i == 12 then Masks(0x80081080, 0x0007e000, 0x7f000000, 0x80002080)
    else if i == 13 then Masks(0x3f0fe008, 0x80000080, 0, 0x7f000000)
    else if i == 14 then Masks(0x400be088, 0xbf040000, 0, 0x80000000)
    else if i == 15 then Masks(0x7d000000, 0x82008008, 0, 0x7fff7ff8)
    else Masks(0x20000000, 0x80000000, 0, 0xa0000000)
  }

  /** ((r | set1) & ~(clear | copy)) | (prev & copy) */
  function Shaped(m: Masks, r: bv32, prev: Word): Word {
    W(ShapeBits(r, m.set1, m.clear, m.copy, prev.bits))
  }

  function ShapeBits(r: bv32, set1: bv32, clear: bv32, copy: bv32, prev: bv32): bv32 {
    ((r | set1) & !(clear | copy)) | (prev & copy)
  }

  function Masked(v: Word, mask: bv32): bv32 { v.bits & mask }

  function Xor(v: Word, w: Word): bv32 { v.bits ^ w.bits }

  function Less(v: Word, delta: bv32): Word { W(v.bits - delta) }

  function Minus(v: Word, w: Word): bv32 { v.bits - w.bits }

  /** What the shaping guarantees of the bits, whatever the random word was. */
  predicate HasShape(m: Masks, v: Word, prev: Word) {
    && BitsCleared(v.bits, m.clear, m.copy)
    && BitsSet(v.bits, m.set1, m.clear, m.copy)
    && (m.copy == 0 || BitsCopied(v.bits, m.copy, prev.bits))
  }

  predicate BitsCleared(v: bv32, clear: bv32, copy: bv32) { v & (clear & !copy) == 0 }

  predicate BitsSet(v: bv32, set1: bv32, clear: bv32, copy: bv32) {
    v & (set1 & !(clear | copy)) == set1 & !(clear | copy)
  }

  predicate BitsCopied(v: bv32, copy: bv32, prev: bv32) { v & copy == prev & copy }

  lemma ShapedHasShape(m: Masks, r: bv32, prev: Word)
    ensures HasShape(m, Shaped(m, r, prev), prev)
  {
    ShapeClears(r, m.set1, m.clear, m.copy, prev.bits);
    ShapeSets(r, m.set1, m.clear, m.copy, prev.bits);
    ShapeCopies(r, m.set1, m.clear, m.copy, prev.bits);
    hide ShapeBits, BitsCleared, BitsSet, BitsCopied;
  }

  lemma ShapeClears(r: bv32, set1: bv32, clear: bv32, copy: bv32, prev: bv32)
    ensures BitsCleared(ShapeBits(r, set1, clear, copy, prev), clear, copy)
  {
  }

  lemma ShapeSets(r: bv32, set1: bv32, clear: bv32, copy: bv32, prev: bv32)
    ensures BitsSet(ShapeBits(r, set1, clear, copy, prev), set1, clear, copy)
  {
  }

  lemma ShapeCopies(r: bv32, set1: bv32, clear: bv32, copy: bv32, prev: bv32)
    ensures BitsCopied(ShapeBits(r, set1, clear, copy, prev), copy, prev)
  {
  }

  const MSB: bv32 := 0x80000000

  /** The test on the first message's output, made as soon as it is computed. */
  predicate TestOutput(second: bool, c: Chain, i: int)
    requires WellSized(c) && 1 <= i <= 64
  {
    var v := c.q[i];
    if i == 17 && second then Masked(v, 0x80028008) == Masked(c.q[16], 0x00008008)
    else if i == 18 then Masked(v, 0xa0020000) == 0x00020000 | Masked(c.q[17], 0x20000000)
    else if i == 19 then Masked(v, 0x80020000) == 0
    else if i == 20 && second then Masked(v, MSB) == 0
    else if i == 21 then Masked(v, 0x80020000) == Masked(c.q[20], 0x00020000)
    else if i == 22 || i == 23 then Masked(v, MSB) == 0
    else if i == 50 then second || Masked(v, MSB) != Masked(c.q[48], MSB)
    else if 48 <= i <= 59 then Masked(v, MSB) == Masked(c.q[i - 2], MSB)
    else if second then true
    else if i == 60 then Masked(v, 0x02000000) == 0
    else if i == 62 then Masked(Add(c.h.d, v), 0x02000000) == 0
    else if i == 63 then
      Masked(Add(c.h.c, v), 0x86000000) == Masked(Add(c.h.d, c.q[62]), MSB) | 0x02000000
    else if i == 64 then Masked(Add(c.h.b, v), 0x86000020) == Masked(Add(c.h.c, c.q[63]), MSB)
    else true
  }

  predicate TopsDiffer(v: Word, w: Word) { Xor(v, w) & MSB != 0 }

  /** The same test in the form of the code: block 1 compares top bits by an exclusive or, block 2
      by masking each. */
  predicate TestForm(second: bool, c: Chain, i: int)
    requires WellSized(c) && 1 <= i <= 64
  {
    if 48 <= i <= 59 && !second then TopsDiffer(c.q[i], c.q[i - 2]) == (i == 50)
    else TestOutput(second, c, i)
  }

  lemma TopBitsAgree(v: bv32, w: bv32)
    ensures (v ^ w) & 0x80000000 == 0 <==> v & 0x80000000 == w & 0x80000000
  {
  }

  lemma TestFormIsTest(second: bool, c: Chain, i: int)
    requires WellSized(c) && 1 <= i <= 64
    ensures TestForm(second, c, i) <==> TestOutput(second, c, i)
  {
    if 48 <= i <= 59 && !second {
      TopBitsAgree(c.q[i].bits, c.q[i - 2].bits);
    }
  }

  /** The register of the chaining value that step i (61 to 64) is added to. */
  function Feed(h: Regs, i: int): Word {
    if i == 61 then h.a else if i == 62 then h.d else if i == 63 then h.c else h.b
  }

  /** The test on the difference between the two messages' outputs. */
  predicate TestDifference(second: bool, c0: Chain, c1: Chain, i: int)
    requires WellSized(c0) && WellSized(c1) && 1 <= i <= 64
  {
    var v0, v1 := c0.q[i], c1.q[i];
    if i == 19 then Minus(v0, v1) == 0x7ffe0000
    else if 23 <= i <= 34 then v0 == v1
    else if i <= 60 then Xor(v0, v1) == MSB
    else
      var s0, s1 := Add(Feed(c0.h, i), v0), Add(Feed(c1.h, i), v1);
      if second then (i == 61 ==> Xor(v0, v1) == MSB) && s0 == s1
      else if i == 61 then Xor(s0, s1) == MSB else Minus(s0, s1) == 0x7e000000
  }

  /** Everything the search has checked or arranged about the outputs of step i. */
  predicate OnPath1(second: bool, c0: Chain, c1: Chain, i: int)
    requires WellSized(c0) && WellSized(c1) && 1 <= i <= 64
  {
    if IsPick(second, i) then
      var m := PickMasks(second, i);
      HasShape(m, c0.q[i], c0.q[i - 1]) && c1.q[i] == Less(c0.q[i], m.delta)
    else if i <= 2 then c0.q[i] == c1.q[i]
    else TestOutput(second, c0, i) && TestDifference(second, c0, c1, i)
  }

  ghost predicate OnPath(second: bool, s: Lanes, lo: int, hi: int)
    requires Sized(s)
  {
    forall i | lo <= i <= hi && 1 <= i <= 64 :: OnPath1(second, s.c0, s.c1, i)
  }

  // ---------------------------------------------------------------------------------
  // What a write leaves alone.

  predicate QChanged(c: Chain, c': Chain, j: int)
    requires WellSized(c) && 0 <= j <= 64
  {
    WellSized(c') && c' == c.(q := c.q[j := c'.q[j]])
  }

  /** Only the outputs of step j were written. */
  predicate OutputChanged(s: Lanes, s': Lanes, j: int)
    requires Sized(s) && 0 <= j <= 64
  {
    QChanged(s.c0, s'.c0, j) && QChanged(s.c1, s'.c1, j) && s'.x0 == s.x0 && s'.x1 == s.x1
  }

  /** Only message word k was written. */
  predicate WordChanged(s: Lanes, s': Lanes, k: int)
    requires 0 <= k < 16
  {
    s'.c0 == s.c0 && s'.c1 == s.c1 && s'.x0 == s.x0[k := s'.x0[k]] && s'.x1 == s.x1[k := s'.x1[k]]
  }

  lemma KeepSolved(s: Lanes, s': Lanes, j: int, lo: int, hi: int)
    requires Sized(s) && 1 <= j <= 64 && OutputChanged(s, s', j)
    requires Solved(s, lo, hi) && (j > hi || j < lo - 4)
    ensures Solved(s', lo, hi)
  {
    hide StepOut, WordIndex;
    forall i | lo <= i <= hi && 1 <= i <= 64
      ensures Solved1(s'.c0, s'.x0, i) && Solved1(s'.c1, s'.x1, i)
    {
      assert Solved1(s.c0, s.x0, i) && Solved1(s.c1, s.x1, i);
      assert j != i && j != i - 1 && j != i - 2 && j != i - 3 && j != i - 4;
    }
  }

  predicate ReadsWord(i: int, k: int) { 1 <= i <= 64 && WordIndex(i - 1) == k }

  lemma KeepSolvedWord(s: Lanes, s': Lanes, k: int, lo: int, hi: int)
    requires Sized(s) && 0 <= k < 16 && WordChanged(s, s', k)
    requires Solved(s, lo, hi)
    requires forall i | lo <= i <= hi :: !ReadsWord(i, k)
    ensures Solved(s', lo, hi)
  {
    hide StepOut, WordIndex;
    forall i | lo <= i <= hi && 1 <= i <= 64
      ensures Solved1(s'.c0, s'.x0, i) && Solved1(s'.c1, s'.x1, i)
    {
      assert Solved1(s.c0, s.x0, i) && Solved1(s.c1, s.x1, i);
      assert !ReadsWord(i, k);
    }
  }

  lemma KeepPaired(s: Lanes, s': Lanes, k: int, lo: int, hi: int)
    requires 0 <= k < 16 && WordChanged(s, s', k)
    requires Paired(s, lo, hi) && (k < lo || k > hi)
    ensures Paired(s', lo, hi)
  {
    forall n | lo <= n <= hi && 0 <= n < 16 ensures Paired1(s', n) { assert Paired1(s, n); }
  }

  /** The test at step i does not look at output j. */
  predicate Unread(second: bool, i: int, j: int) {
    && i != j
    && (j == i - 1 ==> IsPick(second, i) && PickMasks(second, i).copy == 0)
    && (j == i - 2 ==> i < 48)
  }

  lemma KeepOnPath(second: bool, s: Lanes, s': Lanes, j: int, lo: int, hi: int)
    requires Sized(s) && 1 <= j <= 64 && OutputChanged(s, s', j)
    requires OnPath(second, s, lo, hi)
    requires forall i | lo <= i <= hi && 1 <= i <= 64 :: Unread(second, i, j)
    ensures OnPath(second, s', lo, hi)
  {
    forall i | lo <= i <= hi && 1 <= i <= 64 ensures OnPath1(second, s'.c0, s'.c1, i) {
      assert OnPath1(second, s.c0, s.c1, i);
      assert Unread(second, i, j);
      KeepOnPath1(second, s, s', j, i);
    }
  }

  lemma KeepOnPath1(second: bool, s: Lanes, s': Lanes, j: int, i: int)
    requires Sized(s) && 1 <= j <= 64 && 1 <= i <= 64 && OutputChanged(s, s', j)
    requires OnPath1(second, s.c0, s.c1, i) && Unread(second, i, j)
    ensures OnPath1(second, s'.c0, s'.c1, i)
  {
    hide PickMasks, Add, Masked, Xor, Minus, Less, BitsCleared, BitsSet, BitsCopied;
    assert s'.c0.q[i] == s.c0.q[i] && s'.c1.q[i] == s.c1.q[i];
    assert s'.c0.h == s.c0.h && s'.c1.h == s.c1.h;
    if IsPick(second, i) {
      assert j == i - 1 || s'.c0.q[i - 1] == s.c0.q[i - 1];
    } else if i > 2 {
      assert s'.c0.q[i - 1] == s.c0.q[i - 1];
      assert i < 48 || s'.c0.q[i - 2] == s.c0.q[i - 2];
    }
  }
}
