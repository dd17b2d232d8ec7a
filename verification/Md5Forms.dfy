/** The search's constants in two ways: what the code writes out for each picked output, against the
    table of masks, and the tests on masked bits, against conditions on single bits. */
module Md5Forms {
  import opened Md5Spec
  import opened Md5Path

  // ---------------------------------------------------------------------------------
  // What is written out for each picked output, from a random word and the output before it.

  function With(v: bv32, bits: bv32): bv32 { v | bits }
  function Cut(v: bv32, bits: bv32): bv32 { v & !bits }
  function Only(v: bv32, bits: bv32): bv32 { v & bits }

  function PickForm1(i: int, r: bv32, p: bv32): bv32 {
    if i == 3 then Cut(r, 0x00800040)
    else if i == 4 then With(Cut(With(r, 0x80080800), 0x00800040 | 0x0077f780), Only(p, 0x0077f780))
    else if i == 5 then Cut(With(r, 0x88400025), 0x02bfffc0)
    else if i == 6 then With(Cut(With(r, 0x027fbc41), 0x888043a4 | 0x7500001a), Only(p, 0x7500001a))
    else if i == 7 then Cut(With(r, 0x03fef820), 0xfc0107df)
    else if i == 8 then Cut(With(r, 0x01910540), 0xfe0eaabf)
    else if i == 9 then With(Cut(With(r, 0xfb102f3d), 0x040f80c2 | 0x00001000), Only(p, 0x00001000))
    else if i == 10 then Cut(With(r, 0x401f9040), 0x80802183)
    else if i == 11 then With(Cut(With(r, 0x000180c2), 0xc00e3101 | 0x00004000), Only(p, 0x00004000))
    else if i == 12 then With(Cut(With(r, 0x00081100), 0xc007e080 | 0x03000000), Only(p, 0x03000000))
    else if i == 13 then Cut(With(r, 0x410fe008), 0x82000180)
    else if i == 14 then Cut(With(r, 0x000be188), 0xa3040000)
    else if i == 15 then Cut(With(r, 0x21008000), 0x82000008)
    else if i == 16 then Cut(With(r, 0x20000000), 0x80000000)
    else if i == 17 then With(Cut(r, 0x80020000 | 0x00008008), Only(p, 0x00008008))
    else Cut(r, 0x80000000)
  }

  function PickForm2(i: int, r: bv32, p: bv32): bv32 {
    if i == 1 then Cut(With(r, 0x84200000), 0x0a000820)
    else if i == 2 then With(Cut(With(r, 0x8c000800), 0x02208026 | 0x701f10c0), Only(p, 0x701f10c0))
    else if i == 3 then With(Cut(With(r, 0xbe1f0966), 0x40201080 | 0x00000018), Only(p, 0x00000018))
    else if i == 4 then With(Cut(With(r, 0xba040010), 0x443b19ee | 0x00000601), Only(p, 0x00000601))
    else if i == 5 then Cut(With(r, 0x482f0e50), 0xb41011af)
    else if i == 6 then Cut(With(r, 0x04220c56), 0x9a1113a9)
    else if i == 7 then With(Cut(With(r, 0x96011e01), 0x083201c0 | 0x01808000), Only(p, 0x01808000))
    else if i == 8 then With(Cut(With(r, 0x843283c0), 0x1b810001 | 0x00000002), Only(p, 0x00000002))
    else if i == 9 then With(Cut(With(r, 0x9c0101c1), 0x03828202 | 0x00001000), Only(p, 0x00001000))
    else if i == 10 then Cut(With(r, 0x878383c0), 0x00041003)
    else if i == 11 then With(Cut(With(r, 0x800583c3), 0x00021000 | 0x00086000), Only(p, 0x00086000))
    else if i == 12 then With(Cut(With(r, 0x80081080), 0x0007e000 | 0x7f000000), Only(p, 0x7f000000))
    else if i == 13 then Cut(With(r, 0x3f0fe008), 0x80000080)
    else if i == 14 then Cut(With(r, 0x400be088), 0xbf040000)
    else if i == 15 then Cut(With(r, 0x7d000000), 0x82008008)
    else Cut(With(r, 0x20000000), 0x80000000)
  }

  function PickForm(second: bool, i: int, r: bv32, p: Word): Word {
    W(if second then PickForm2(i, r, p.bits) else PickForm1(i, r, p.bits))
  }

  // The other message's output, from the first message's.
  function OtherForm1(i: int, v: Word): Word {
    if i == 3 then v
    else if i == 4 then v
    else if i == 5 then Less(v, 0x00000040)
    else if i == 6 then Less(v, 0x7f800040)
    else if i == 7 then Less(v, 0x07800041)
    else if i == 8 then Less(v, 0x00827fff)
    else if i == 9 then Less(v, 0x8000003f)
    else if i == 10 then Less(v, 0x7ffff000)
    else if i == 11 then Less(v, 0x40000000)
    else if i == 12 then Less(v, 0x80002080)
    else if i == 13 then Less(v, 0x7f000000)
    else if i == 14 then Less(v, 0x80000000)
    else if i == 15 then Less(v, 0x80007ff8)
    else if i == 16 then Less(v, 0xa0000000)
    else if i == 17 then Less(v, 0x80000000)
    else Less(v, 0x80000000)
  }

  function OtherForm2(i: int, v: Word): Word {
    if i == 1 then Less(v, 0x7e000000)
    else if i == 2 then Less(v, 0x7dffffe0)
    else if i == 3 then Less(v, 0x7dfef7e0)
    else if i == 4 then Less(v, 0x7dffffe2)
    else if i == 5 then Less(v, 0x7ffffcbf)
    else if i == 6 then Less(v, 0x80110000)
    else if i == 7 then Less(v, 0x88000040)
    else if i == 8 then Less(v, 0x80818000)
    else if i == 9 then Less(v, 0x7fffffbf)
    else if i == 10 then Less(v, 0x7ffff000)
    else if i == 11 then Less(v, 0x80000000)
    else if i == 12 then Less(v, 0x80002080)
    else if i == 13 then Less(v, 0x7f000000)
    else if i == 14 then Less(v, 0x80000000)
    else if i == 15 then Less(v, 0x7fff7ff8)
    else Less(v, 0xa0000000)
  }

  function OtherForm(second: bool, i: int, v: Word): Word {
    if second then OtherForm2(i, v) else OtherForm1(i, v)
  }

  lemma ShapeWithCopy(r: bv32, set1: bv32, clear: bv32, copy: bv32, p: bv32)
    ensures ShapeBits(r, set1, clear, copy, p) == With(Cut(With(r, set1), clear | copy), Only(p, copy))
  {
    calc {
      With(Cut(With(r, set1), clear | copy), Only(p, copy));
      With(Cut(r | set1, clear | copy), p & copy);
      With((r | set1) & !(clear | copy), p & copy);
      ((r | set1) & !(clear | copy)) | (p & copy);
    }
  }

  lemma ShapeWithout(r: bv32, set1: bv32, clear: bv32, p: bv32)
    ensures ShapeBits(r, set1, clear, 0, p) == Cut(With(r, set1), clear) && With(r, 0) == r
  {
  }

  lemma Form1Low(i: int, r: bv32, p: bv32)
    requires 3 <= i <= 8
    ensures var m := PickMasks1(i); PickForm1(i, r, p) == ShapeBits(r, m.set1, m.clear, m.copy, p)
  {
    var m := PickMasks1(i);
    ShapeWithCopy(r, m.set1, m.clear, m.copy, p);
    ShapeWithout(r, m.set1, m.clear, p);
    hide With, Cut, Only, ShapeBits;
  }

  lemma Form1Middle(i: int, r: bv32, p: bv32)
    requires 9 <= i <= 13
    ensures var m := PickMasks1(i); PickForm1(i, r, p) == ShapeBits(r, m.set1, m.clear, m.copy, p)
  {
    var m := PickMasks1(i);
    ShapeWithCopy(r, m.set1, m.clear, m.copy, p);
    ShapeWithout(r, m.set1, m.clear, p);
    hide With, Cut, Only, ShapeBits;
  }

  lemma Form1High(i: int, r: bv32, p: bv32)
    requires 14 <= i <= 16
    ensures var m := PickMasks1(i); PickForm1(i, r, p) == ShapeBits(r, m.set1, m.clear, m.copy, p)
  {
    var m := PickMasks1(i);
    ShapeWithCopy(r, m.set1, m.clear, m.copy, p);
    ShapeWithout(r, m.set1, m.clear, p);
    hide With, Cut, Only, ShapeBits;
  }

  lemma Form1Last(i: int, r: bv32, p: bv32)
    requires i == 17 || i == 20
    ensures var m := PickMasks1(i); PickForm1(i, r, p) == ShapeBits(r, m.set1, m.clear, m.copy, p)
  {
    var m := PickMasks1(i);
    ShapeWithCopy(r, m.set1, m.clear, m.copy, p);
    ShapeWithout(r, m.set1, m.clear, p);
    hide With, Cut, Only, ShapeBits;
  }

  lemma Form2Low(i: int, r: bv32, p: bv32)
    requires 1 <= i <= 5
    ensures var m := PickMasks2(i); PickForm2(i, r, p) == ShapeBits(r, m.set1, m.clear, m.copy, p)
  {
    var m := PickMasks2(i);
    ShapeWithCopy(r, m.set1, m.clear, m.copy, p);
    ShapeWithout(r, m.set1, m.clear, p);
    hide With, Cut, Only, ShapeBits;
  }

  lemma Form2Middle(i: int, r: bv32, p: bv32)
    requires 6 <= i <= 10
    ensures var m := PickMasks2(i); PickForm2(i, r, p) == ShapeBits(r, m.set1, m.clear, m.copy, p)
  {
    var m := PickMasks2(i);
    ShapeWithCopy(r, m.set1, m.clear, m.copy, p);
    ShapeWithout(r, m.set1, m.clear, p);
    hide With, Cut, Only, ShapeBits;
  }

  lemma Form2High(i: int, r: bv32, p: bv32)
    requires 11 <= i <= 16
    ensures var m := PickMasks2(i); PickForm2(i, r, p) == ShapeBits(r, m.set1, m.clear, m.copy, p)
  {
    var m := PickMasks2(i);
    ShapeWithCopy(r, m.set1, m.clear, m.copy, p);
    ShapeWithout(r, m.set1, m.clear, p);
    hide With, Cut, Only, ShapeBits;
  }

  lemma LessZero(v: Word)
    ensures Less(v, 0) == v
  {
    assert Less(v, 0).bits == v.bits;
  }

  lemma OtherIsLess(second: bool, i: int, v: Word)
    requires IsPick(second, i)
    ensures OtherForm(second, i, v) == Less(v, PickMasks(second, i).delta)
  {
    LessZero(v);
    hide Less;
  }

  /** What is written out is what the table of masks says. */
  lemma FormsAgree(second: bool, i: int, r: bv32, p: Word, v: Word)
    requires IsPick(second, i)
    ensures PickForm(second, i, r, p) == Shaped(PickMasks(second, i), r, p)
    ensures OtherForm(second, i, v) == Less(v, PickMasks(second, i).delta)
  {
    OtherIsLess(second, i, v);
    hide OtherForm, Less, PickForm1, PickForm2, PickMasks1, PickMasks2, ShapeBits;
    if !second {
      if i <= 8 { Form1Low(i, r, p.bits); } else if i <= 13 { Form1Middle(i, r, p.bits); }
      else if i <= 16 { Form1High(i, r, p.bits); } else { Form1Last(i, r, p.bits); }
    } else {
      if i <= 5 { Form2Low(i, r, p.bits); } else if i <= 10 { Form2Middle(i, r, p.bits); } else { Form2High(i, r, p.bits); }
    }
  }

  // ---------------------------------------------------------------------------------
  // The tests, bit by bit.

  predicate Bit(v: Word, n: nat)
    requires n < 32
  {
    (v.bits >> n) & 1 == 1
  }

  lemma TopBit(v: Word)
    ensures Masked(v, MSB) == 0 <==> !Bit(v, 31)
  {
  }

  lemma TopBits(v: Word, w: Word)
    ensures Masked(v, MSB) == Masked(w, MSB) <==> Bit(v, 31) == Bit(w, 31)
  {
  }

  lemma Bit25(v: Word)
    ensures Masked(v, 0x02000000) == 0 <==> !Bit(v, 25)
  {
  }

  lemma Masks17(v: Word, w: Word)
    ensures Masked(v, 0x80028008) == Masked(w, 0x00008008) <==>
      !Bit(v, 31) && !Bit(v, 17) && Bit(v, 15) == Bit(w, 15) && Bit(v, 3) == Bit(w, 3)
  {
  }

  lemma Masks18(v: Word, w: Word)
    ensures Masked(v, 0xa0020000) == 0x00020000 | Masked(w, 0x20000000) <==>
      !Bit(v, 31) && Bit(v, 17) && Bit(v, 29) == Bit(w, 29)
  {
  }

  lemma Masks19(v: Word, w: Word)
    ensures Masked(v, 0x80020000) == 0 <==> !Bit(v, 31) && !Bit(v, 17)
    ensures Masked(v, 0x80020000) == Masked(w, 0x00020000) <==> !Bit(v, 31) && Bit(v, 17) == Bit(w, 17)
  {
  }

  lemma Masks63(v: Word, w: Word)
    ensures Masked(v, 0x86000000) == Masked(w, MSB) | 0x02000000 <==>
      Bit(v, 31) == Bit(w, 31) && !Bit(v, 26) && Bit(v, 25)
  {
  }

  lemma Masks64(v: Word, w: Word)
    ensures Masked(v, 0x86000020) == Masked(w, MSB) <==>
      Bit(v, 31) == Bit(w, 31) && !Bit(v, 26) && !Bit(v, 25) && !Bit(v, 5)
  {
  }

  /** What the tests on the first message's outputs ask of single bits, up to step 60. */
  lemma TestByBits(second: bool, c: Chain, i: int)
    requires WellSized(c) && 17 <= i <= 60
    ensures var v := c.q[i];
      TestOutput(second, c, i) <==>
        (if i == 17 then
           second ==> !Bit(v, 31) && !Bit(v, 17) && Bit(v, 15) == Bit(c.q[16], 15) && Bit(v, 3) == Bit(c.q[16], 3)
         else if i == 18 then !Bit(v, 31) && Bit(v, 17) && Bit(v, 29) == Bit(c.q[17], 29)
         else if i == 19 then !Bit(v, 31) && !Bit(v, 17)
         else if i == 20 then second ==> !Bit(v, 31)
         else if i == 21 then !Bit(v, 31) && Bit(v, 17) == Bit(c.q[20], 17)
         else if i == 22 || i == 23 then !Bit(v, 31)
         else if i == 50 then !second ==> Bit(v, 31) != Bit(c.q[48], 31)
         else if 48 <= i <= 59 then Bit(v, 31) == Bit(c.q[i - 2], 31)
         else if i == 60 then !second ==> !Bit(v, 25)
         else true)
  {
    var v := c.q[i];
    TopBit(v);
    TopBits(v, c.q[i - 2]);
    Bit25(v);
    Masks17(v, c.q[i - 1]);
    Masks18(v, c.q[i - 1]);
    Masks19(v, c.q[i - 1]);
    hide Bit, Masked, Add;
  }

  /** And at the end: in block 1 they ask it of the chaining value, in block 2 nothing is asked. */
  lemma EndTestByBits(second: bool, c: Chain, i: int)
    requires WellSized(c) && 61 <= i <= 64
    ensures var (a, d, g, b) := (Add(c.h.a, c.q[61]), Add(c.h.d, c.q[62]), Add(c.h.c, c.q[63]), Add(c.h.b, c.q[64]));
      TestOutput(second, c, i) <==>
        (if second || i == 61 then true
         else if i == 62 then !Bit(d, 25)
         else if i == 63 then Bit(g, 31) == Bit(d, 31) && !Bit(g, 26) && Bit(g, 25)
         else Bit(b, 31) == Bit(g, 31) && !Bit(b, 26) && !Bit(b, 25) && !Bit(b, 5))
  {
    var (d, g, b) := (Add(c.h.d, c.q[62]), Add(c.h.c, c.q[63]), Add(c.h.b, c.q[64]));
    Bit25(d);
    Masks63(g, d);
    Masks64(b, g);
    hide Bit, Masked, Add;
  }

  /** 2^31 - 2^n */
  function BelowTop(n: nat): bv32
    requires n < 32
  {
    (1 << 31) - (1 << n)
  }

  /** The differences demanded between the two messages' outputs, and at the end between the chaining
      values: the top bit, or a difference of two powers of two. */
  lemma DifferenceByPowers(second: bool, c: Chain, d: Chain, i: int)
    requires WellSized(c) && WellSized(d) && 17 <= i <= 64
    ensures var v, w := c.q[i], d.q[i];
      TestDifference(second, c, d, i) <==>
        (if i == 19 then Minus(v, w) == BelowTop(17)
         else if 23 <= i <= 34 then v == w
         else if i <= 60 then Xor(v, w) == 1 << 31
         else
           var s, t := Add(Feed(c.h, i), v), Add(Feed(d.h, i), w);
           if second then s == t && (i == 61 ==> Xor(v, w) == 1 << 31)
           else if i == 61 then Xor(s, t) == 1 << 31
           else Minus(s, t) == BelowTop(25))
  {
    PowersOfTwo();
    hide Minus, Xor, Add, BelowTop;
  }

  lemma PowersOfTwo()
    ensures BelowTop(17) == 0x7ffe0000 && BelowTop(25) == 0x7e000000 && MSB == 1 << 31
  {
  }
}
