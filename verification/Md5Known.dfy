/** What the digest is, stated apart from the functions that compute it: the padding of
    sections 3.1 and 3.2 of RFC 1321, bit by bit, and the first known answer of its section A.5. */
module Md5Known {
  import opened Md5Spec
  import opened Md5Stream

  // ---------------------------------------------------------------------------------
  // The padding.

  /** Bit i of a sequence of octets, each with its most significant bit first (section 2). */
  predicate BitAt(s: seq<Octet>, i: nat)
    requires i < 8 * |s|
  {
    OctetBit(s[i / 8], i % 8)
  }

  predicate OctetBit(o: Octet, k: nat)
    requires k < 8
  {
    o & (if k == 0 then 0x80 else if k == 1 then 0x40 else if k == 2 then 0x20 else if k == 3 then 0x10
         else if k == 4 then 0x08 else if k == 5 then 0x04 else if k == 6 then 0x02 else 0x01) != 0
  }

  /** Section 3.1: the bits of the message, a single 1 bit, and 0 bits up to 448 modulo 512. */
  lemma PaddedBits(m: seq<Octet>, i: nat)
    requires i < 8 * |Padded(m)| - 64
    ensures BitAt(Padded(m), i) <==> (if i < 8 * |m| then BitAt(m, i) else i == 8 * |m|)
  {
    PaddedAt(m, i / 8);
    hide OctetBit, Padded;
  }

  lemma PaddedAt(m: seq<Octet>, j: nat)
    requires j < |Padded(m)| - 8
    ensures Padded(m)[j] == if j < |m| then m[j] else if j == |m| then 0x80 else 0
  {
    hide PadCount, LengthOctets;
    assert |Padded(m)| == |m| + PadCount(|m|) + 8;
    assert j >= |m| ==> Padded(m)[j] == Padding(PadCount(|m|))[j - |m|];
  }

  /** How long the padded message is, and section 3.2: it ends with the length of the message in
      bits, modulo 2^64, the lowest octet first. */
  lemma PaddedEnd(m: seq<Octet>)
    ensures 8 * |m| < 8 * |Padded(m)| - 64 <= 8 * |m| + 512
    ensures (8 * |Padded(m)| - 64) % 512 == 448
    ensures Value(Padded(m)[|Padded(m)| - 8..]) == 8 * |m| % TWO64
  {
    hide LengthOctets, Value;
    var p := PadCount(|m|);
    assert |Padded(m)| == |m| + p + 8;
    assert Padded(m)[|Padded(m)| - 8..] == LengthOctets(8 * |m| % TWO64);
    LengthValue(8 * |m| % TWO64);
    assert 8 * (|m| + p) == 512 * ((|m| + p) / 64) + 448;
    Remainder(8 * (|m| + p), (|m| + p) / 64);
  }

  lemma Remainder(x: int, q: int)
    requires x == 512 * q + 448
    ensures x % 512 == 448
  {
  }

  /** The number that eight octets stand for, the lowest first. */
  function Value(s: seq<Octet>): nat
    requires |s| == 8
  {
    s[0] as nat + 0x100 * s[1] as nat + 0x1_0000 * s[2] as nat + 0x100_0000 * s[3] as nat
    + 0x1_0000_0000 * (s[4] as nat + 0x100 * s[5] as nat + 0x1_0000 * s[6] as nat + 0x100_0000 * s[7] as nat)
  }

  lemma LengthValue(x: nat)
    requires x < TWO64
    ensures Value(LengthOctets(x)) == x
  {
    hide LengthOctets, Value;
    SplitValue(x, x % TWO32, x / TWO32);
  }

  lemma SplitValue(x: nat, low: nat, high: nat)
    requires x == high * TWO32 + low && low < TWO32 && high < TWO32
    ensures Value(LengthOctets(x)) == x
  {
    hide LengthOctets, Digit;
    LengthOctet(x, low, high, 0); LengthOctet(x, low, high, 1);
    LengthOctet(x, low, high, 2); LengthOctet(x, low, high, 3);
    LengthOctet(x, low, high, 4); LengthOctet(x, low, high, 5);
    LengthOctet(x, low, high, 6); LengthOctet(x, low, high, 7);
    FourDigits(low);
    FourDigits(high);
  }

  /** Digit k of a number in base 256. */
  function Digit(y: nat, k: nat): nat { (y / Pow256(k)) % 256 }

  lemma LengthOctet(x: nat, low: nat, high: nat, k: nat)
    requires x == high * TWO32 + low && low < TWO32 && high < TWO32 && k < 8
    ensures LengthOctets(x)[k] as nat == Digit(if k < 4 then low else high, k % 4)
  {
    hide LengthOctets, Pow256;
    LengthAt(x, k);
    CountOctets(low, high, k);
  }

  /** A number below 2^32 is the sum of its octets. */
  lemma FourDigits(y: nat)
    requires y < TWO32
    ensures y == Digit(y, 0) + 0x100 * Digit(y, 1) + 0x1_0000 * Digit(y, 2) + 0x100_0000 * Digit(y, 3)
  {
    Powers();
    hide Pow256;
    assert y / 0x1_0000 == y / 0x100 / 256 && y / 0x100_0000 == y / 0x1_0000 / 256;
  }

  lemma LengthAt(x: nat, k: nat)
    requires k < 8
    ensures LengthOctets(x)[k] as nat == (x / Pow256(k)) % 256
  {
    hide Pow256;
    OctetAndBack((x / Pow256(k)) % 256);
  }

  lemma OctetAndBack(v: nat)
    requires v < 256
    ensures (v as Octet) as nat == v
  {
    HalvesAndBack(v / 16, v % 16);
  }

  lemma HalvesAndBack(high: nat, low: nat)
    requires high < 16 && low < 16
    ensures ((16 * high + low) as Octet) as nat == 16 * high + low
  {
  }

  // ---------------------------------------------------------------------------------
  // The known answer.

  /** The one block of the empty message, padded. */
  predicate IsEmptyBlock(x: seq<Word>) {
    |x| == 16 && x[0] == W(0x80) && forall k :: 1 <= k < 16 ==> x[k] == W(0)
  }

  // One operation of each round, as the reference implementation of RFC 1321 names them.
  function FF(a: Word, b: Word, c: Word, d: Word, x: Word, s: nat, t: bv32): Word
    requires s < 32
  {
    Combine(a, b, F(b, c, d), x, s, t)
  }

  function GG(a: Word, b: Word, c: Word, d: Word, x: Word, s: nat, t: bv32): Word
    requires s < 32
  {
    Combine(a, b, G(b, c, d), x, s, t)
  }

  function HH(a: Word, b: Word, c: Word, d: Word, x: Word, s: nat, t: bv32): Word
    requires s < 32
  {
    Combine(a, b, H(b, c, d), x, s, t)
  }

  function II(a: Word, b: Word, c: Word, d: Word, x: Word, s: nat, t: bv32): Word
    requires s < 32
  {
    Combine(a, b, I(b, c, d), x, s, t)
  }

  lemma Outputs1()
    ensures FF(W(0x67452301), W(0xefcdab89), W(0x98badcfe), W(0x10325476), W(0x80), 7, 0xd76aa478) == W(0xa5202774)
    ensures FF(W(0x10325476), W(0xa5202774), W(0xefcdab89), W(0x98badcfe), W(0), 12, 0xe8c7b756) == W(0xf59592dd)
    ensures FF(W(0x98badcfe), W(0xf59592dd), W(0xa5202774), W(0xefcdab89), W(0), 17, 0x242070db) == W(0xe7f06b23)
    ensures FF(W(0xefcdab89), W(0xe7f06b23), W(0xf59592dd), W(0xa5202774), W(0), 22, 0xc1bdceee) == W(0x1b163203)
    ensures FF(W(0xa5202774), W(0x1b163203), W(0xe7f06b23), W(0xf59592dd), W(0), 7, 0xf57c0faf) == W(0x32033344)
    ensures FF(W(0xf59592dd), W(0x32033344), W(0x1b163203), W(0xe7f06b23), W(0), 12, 0x4787c62a) == W(0x2f35d494)
    ensures FF(W(0xe7f06b23), W(0x2f35d494), W(0x32033344), W(0x1b163203), W(0), 17, 0xa8304613) == W(0xf5b158db)
    ensures FF(W(0x1b163203), W(0xf5b158db), W(0x2f35d494), W(0x32033344), W(0), 22, 0xfd469501) == W(0x9bc13ce9)
    ensures FF(W(0x32033344), W(0x9bc13ce9), W(0xf5b158db), W(0x2f35d494), W(0), 7, 0x698098d8) == W(0x3893b991)
    ensures FF(W(0x2f35d494), W(0x3893b991), W(0x9bc13ce9), W(0xf5b158db), W(0), 12, 0x8b44f7af) == W(0xfce4a312)
    ensures FF(W(0xf5b158db), W(0xfce4a312), W(0x3893b991), W(0x9bc13ce9), W(0), 17, 0xffff5bb1) == W(0xe1ef0576)
    ensures FF(W(0x9bc13ce9), W(0xe1ef0576), W(0xfce4a312), W(0x3893b991), W(0), 22, 0x895cd7be) == W(0x70768a29)
    ensures FF(W(0x3893b991), W(0x70768a29), W(0xe1ef0576), W(0xfce4a312), W(0), 7, 0x6b901122) == W(0xf56c7cf1)
    ensures FF(W(0xfce4a312), W(0xf56c7cf1), W(0x70768a29), W(0xe1ef0576), W(0), 12, 0xfd987193) == W(0x374943a7)
    ensures FF(W(0xe1ef0576), W(0x374943a7), W(0xf56c7cf1), W(0x70768a29), W(0), 17, 0xa679438e) == W(0x5aa53f75)
    ensures FF(W(0x70768a29), W(0x5aa53f75), W(0x374943a7), W(0xf56c7cf1), W(0), 22, 0x49b40821) == W(0xd6819c6a)
  {
  }

  lemma EmptyRound1(x: seq<Word>)
    requires IsEmptyBlock(x)
    ensures Rounds(Regs(W(0x67452301), W(0xefcdab89), W(0x98badcfe), W(0x10325476)), x, 0, 16)
         == Regs(W(0xf56c7cf1), W(0xd6819c6a), W(0x5aa53f75), W(0x374943a7))
  {
    Outputs1();
    hide Rounds, Combine, F, G, H, I;
    var r := Regs(W(0x67452301), W(0xefcdab89), W(0x98badcfe), W(0x10325476));
    RoundsStart(r, x, 0);
    FourSteps(r, x, 0, 0, r, W(0xa5202774), W(0x1b163203), W(0xe7f06b23), W(0xf59592dd));
    FourSteps(r, x, 0, 4, Regs(W(0xa5202774), W(0x1b163203), W(0xe7f06b23), W(0xf59592dd)),
              W(0x32033344), W(0x9bc13ce9), W(0xf5b158db), W(0x2f35d494));
    FourSteps(r, x, 0, 8, Regs(W(0x32033344), W(0x9bc13ce9), W(0xf5b158db), W(0x2f35d494)),
              W(0x3893b991), W(0x70768a29), W(0xe1ef0576), W(0xfce4a312));
    FourSteps(r, x, 0, 12, Regs(W(0x3893b991), W(0x70768a29), W(0xe1ef0576), W(0xfce4a312)),
              W(0xf56c7cf1), W(0xd6819c6a), W(0x5aa53f75), W(0x374943a7));
  }

  lemma Outputs2()
    ensures GG(W(0xf56c7cf1), W(0xd6819c6a), W(0x5aa53f75), W(0x374943a7), W(0), 5, 0xf61e2562) == W(0x1c7d7513)
    ensures GG(W(0x374943a7), W(0x1c7d7513), W(0xd6819c6a), W(0x5aa53f75), W(0), 9, 0xc040b340) == W(0x7bd57a3a)
    ensures GG(W(0x5aa53f75), W(0x7bd57a3a), W(0x1c7d7513), W(0xd6819c6a), W(0), 14, 0x265e5a51) == W(0xc095f13a)
    ensures GG(W(0xd6819c6a), W(0xc095f13a), W(0x7bd57a3a), W(0x1c7d7513), W(0x80), 20, 0xe9b6c7aa) == W(0xbd782e17)
    ensures GG(W(0x1c7d7513), W(0xbd782e17), W(0xc095f13a), W(0x7bd57a3a), W(0), 5, 0xd62f105d) == W(0x3d1e3e6c)
    ensures GG(W(0x7bd57a3a), W(0x3d1e3e6c), W(0xbd782e17), W(0xc095f13a), W(0), 9, 0x02441453) == W(0x68b7b3e3)
    ensures GG(W(0xc095f13a), W(0x68b7b3e3), W(0x3d1e3e6c), W(0xbd782e17), W(0), 14, 0xd8a1e681) == W(0xeb41643e)
    ensures GG(W(0xbd782e17), W(0xeb41643e), W(0x68b7b3e3), W(0x3d1e3e6c), W(0), 20, 0xe7d3fbc8) == W(0xe422531a)
    ensures GG(W(0x3d1e3e6c), W(0xe422531a), W(0xeb41643e), W(0x68b7b3e3), W(0), 5, 0x21e1cde6) == W(0x306ec122)
    ensures GG(W(0x68b7b3e3), W(0x306ec122), W(0xe422531a), W(0xeb41643e), W(0), 9, 0xc33707d6) == W(0xd28c77c2)
    ensures GG(W(0xeb41643e), W(0xd28c77c2), W(0x306ec122), W(0xe422531a), W(0), 14, 0xf4d50d87) == W(0xa3c663da)
    ensures GG(W(0xe422531a), W(0xa3c663da), W(0xd28c77c2), W(0x306ec122), W(0), 20, 0x455a14ed) == W(0xa0572807)
    ensures GG(W(0x306ec122), W(0xa0572807), W(0xa3c663da), W(0xd28c77c2), W(0), 5, 0xa9e3e905) == W(0x13707036)
    ensures GG(W(0xd28c77c2), W(0x13707036), W(0xa0572807), W(0xa3c663da), W(0), 9, 0xfcefa3f8) == W(0xae7813db)
    ensures GG(W(0xa3c663da), W(0xae7813db), W(0x13707036), W(0xa0572807), W(0), 14, 0x676f02d9) == W(0x1c31c384)
    ensures GG(W(0xa0572807), W(0x1c31c384), W(0xae7813db), W(0x13707036), W(0), 20, 0x8d2a4c8a) == W(0xa2205f1f)
  {
  }

  lemma EmptyRound2(x: seq<Word>)
    requires IsEmptyBlock(x)
    ensures Rounds(Regs(W(0xf56c7cf1), W(0xd6819c6a), W(0x5aa53f75), W(0x374943a7)), x, 16, 32)
         == Regs(W(0x13707036), W(0xa2205f1f), W(0x1c31c384), W(0xae7813db))
  {
    Outputs2();
    hide Rounds, Combine, F, G, H, I;
    var r := Regs(W(0xf56c7cf1), W(0xd6819c6a), W(0x5aa53f75), W(0x374943a7));
    RoundsStart(r, x, 16);
    FourSteps(r, x, 16, 16, r, W(0x1c7d7513), W(0xbd782e17), W(0xc095f13a), W(0x7bd57a3a));
    FourSteps(r, x, 16, 20, Regs(W(0x1c7d7513), W(0xbd782e17), W(0xc095f13a), W(0x7bd57a3a)),
              W(0x3d1e3e6c), W(0xe422531a), W(0xeb41643e), W(0x68b7b3e3));
    FourSteps(r, x, 16, 24, Regs(W(0x3d1e3e6c), W(0xe422531a), W(0xeb41643e), W(0x68b7b3e3)),
              W(0x306ec122), W(0xa0572807), W(0xa3c663da), W(0xd28c77c2));
    FourSteps(r, x, 16, 28, Regs(W(0x306ec122), W(0xa0572807), W(0xa3c663da), W(0xd28c77c2)),
              W(0x13707036), W(0xa2205f1f), W(0x1c31c384), W(0xae7813db));
  }

  lemma Outputs3()
    ensures HH(W(0x13707036), W(0xa2205f1f), W(0x1c31c384), W(0xae7813db), W(0), 4, 0xfffa3942) == W(0xdf63eaa1)
    ensures HH(W(0xae7813db), W(0xdf63eaa1), W(0xa2205f1f), W(0x1c31c384), W(0), 11, 0x8771f681) == W(0xc3689f5b)
    ensures HH(W(0x1c31c384), W(0xc3689f5b), W(0xdf63eaa1), W(0xa2205f1f), W(0), 16, 0x6d9d6122) == W(0x12f3e755)
    ensures HH(W(0xa2205f1f), W(0x12f3e755), W(0xc3689f5b), W(0xdf63eaa1), W(0), 23, 0xfde5380c) == W(0x004b6669)
    ensures HH(W(0xdf63eaa1), W(0x004b6669), W(0x12f3e755), W(0xc3689f5b), W(0), 4, 0xa4beea44) == W(0x5f7a9b2e)
    ensures HH(W(0xc3689f5b), W(0x5f7a9b2e), W(0x004b6669), W(0x12f3e755), W(0), 11, 0x4bdecfa9) == W(0xabc34e16)
    ensures HH(W(0x12f3e755), W(0xabc34e16), W(0x5f7a9b2e), W(0x004b6669), W(0), 16, 0xf6bb4b60) == W(0x91ca4cb7)
    ensures HH(W(0x004b6669), W(0x91ca4cb7), W(0xabc34e16), W(0x5f7a9b2e), W(0), 23, 0xbebfbc70) == W(0xc5dc8c15)
    ensures HH(W(0x5f7a9b2e), W(0xc5dc8c15), W(0x91ca4cb7), W(0xabc34e16), W(0), 4, 0x289b7ec6) == W(0x4497169d)
    ensures HH(W(0xabc34e16), W(0x4497169d), W(0xc5dc8c15), W(0x91ca4cb7), W(0x80), 11, 0xeaa127fa) == W(0x76fd93d4)
    ensures HH(W(0x91ca4cb7), W(0x76fd93d4), W(0x4497169d), W(0xc5dc8c15), W(0), 16, 0xd4ef3085) == W(0xfd95f243)
    ensures HH(W(0xc5dc8c15), W(0xfd95f243), W(0x76fd93d4), W(0x4497169d), W(0), 23, 0x04881d05) == W(0x0fe32453)
    ensures HH(W(0x4497169d), W(0x0fe32453), W(0xfd95f243), W(0x76fd93d4), W(0), 4, 0xd9d4d039) == W(0x3f55edfd)
    ensures HH(W(0x76fd93d4), W(0x3f55edfd), W(0x0fe32453), W(0xfd95f243), W(0), 11, 0xe6db99e5) == W(0x22a31f54)
    ensures HH(W(0xfd95f243), W(0x22a31f54), W(0x3f55edfd), W(0x0fe32453), W(0), 16, 0x1fa27cf8) == W(0x68d84ea2)
    ensures HH(W(0x0fe32453), W(0x68d84ea2), W(0x22a31f54), W(0x3f55edfd), W(0), 23, 0xc4ac5665) == W(0xca7d2dbd)
  {
  }

  lemma EmptyRound3(x: seq<Word>)
    requires IsEmptyBlock(x)
    ensures Rounds(Regs(W(0x13707036), W(0xa2205f1f), W(0x1c31c384), W(0xae7813db)), x, 32, 48)
         == Regs(W(0x3f55edfd), W(0xca7d2dbd), W(0x68d84ea2), W(0x22a31f54))
  {
    Outputs3();
    hide Rounds, Combine, F, G, H, I;
    var r := Regs(W(0x13707036), W(0xa2205f1f), W(0x1c31c384), W(0xae7813db));
    RoundsStart(r, x, 32);
    FourSteps(r, x, 32, 32, r, W(0xdf63eaa1), W(0x004b6669), W(0x12f3e755), W(0xc3689f5b));
    FourSteps(r, x, 32, 36, Regs(W(0xdf63eaa1), W(0x004b6669), W(0x12f3e755), W(0xc3689f5b)),
              W(0x5f7a9b2e), W(0xc5dc8c15), W(0x91ca4cb7), W(0xabc34e16));
    FourSteps(r, x, 32, 40, Regs(W(0x5f7a9b2e), W(0xc5dc8c15), W(0x91ca4cb7), W(0xabc34e16)),
              W(0x4497169d), W(0x0fe32453), W(0xfd95f243), W(0x76fd93d4));
    FourSteps(r, x, 32, 44, Regs(W(0x4497169d), W(0x0fe32453), W(0xfd95f243), W(0x76fd93d4)),
              W(0x3f55edfd), W(0xca7d2dbd), W(0x68d84ea2), W(0x22a31f54));
  }

  lemma Outputs4()
    ensures II(W(0x3f55edfd), W(0xca7d2dbd), W(0x68d84ea2), W(0x22a31f54), W(0x80), 6, 0xf4292244) == W(0x93aa2577)
    ensures II(W(0x22a31f54), W(0x93aa2577), W(0xca7d2dbd), W(0x68d84ea2), W(0), 10, 0x432aff97) == W(0x1688dc85)
    ensures II(W(0x68d84ea2), W(0x1688dc85), W(0x93aa2577), W(0xca7d2dbd), W(0), 15, 0xab9423a7) == W(0xcd85b8cb)
    ensures II(W(0xca7d2dbd), W(0xcd85b8cb), W(0x1688dc85), W(0x93aa2577), W(0), 21, 0xfc93a039) == W(0x561e0689)
    ensures II(W(0x93aa2577), W(0x561e0689), W(0xcd85b8cb), W(0x1688dc85), W(0), 6, 0x655b59c3) == W(0x5625a114)
    ensures II(W(0x1688dc85), W(0x5625a114), W(0x561e0689), W(0xcd85b8cb), W(0), 10, 0x8f0ccc92) == W(0x3450f42b)
    ensures II(W(0xcd85b8cb), W(0x3450f42b), W(0x5625a114), W(0x561e0689), W(0), 15, 0xffeff47d) == W(0x392ad0d0)
    ensures II(W(0x561e0689), W(0x392ad0d0), W(0x3450f42b), W(0x5625a114), W(0), 21, 0x85845dd1) == W(0x1e77fa61)
    ensures II(W(0x5625a114), W(0x1e77fa61), W(0x392ad0d0), W(0x3450f42b), W(0), 6, 0x6fa87e4f) == W(0x474a9c8c)
    ensures II(W(0x3450f42b), W(0x474a9c8c), W(0x1e77fa61), W(0x392ad0d0), W(0), 10, 0xfe2ce6e0) == W(0xdfce00bc)
    ensures II(W(0x392ad0d0), W(0xdfce00bc), W(0x474a9c8c), W(0x1e77fa61), W(0), 15, 0xa3014314) == W(0x36594b14)
    ensures II(W(0x1e77fa61), W(0x36594b14), W(0xdfce00bc), W(0x474a9c8c), W(0), 21, 0x4e0811a1) == W(0x30130182)
    ensures II(W(0x474a9c8c), W(0x30130182), W(0x36594b14), W(0xdfce00bc), W(0), 6, 0xf7537e82) == W(0x7246fad3)
    ensures II(W(0xdfce00bc), W(0x7246fad3), W(0x30130182), W(0x36594b14), W(0), 10, 0xbd3af235) == W(0x6e10a476)
    ensures II(W(0x36594b14), W(0x6e10a476), W(0x7246fad3), W(0x30130182), W(0), 15, 0x2ad7d2bb) == W(0xff4ea3eb)
    ensures II(W(0x30130182), W(0xff4ea3eb), W(0x6e10a476), W(0x7246fad3), W(0), 21, 0xeb86d391) == W(0x14e45506)
  {
  }

  lemma EmptyRound4(x: seq<Word>)
    requires IsEmptyBlock(x)
    ensures Rounds(Regs(W(0x3f55edfd), W(0xca7d2dbd), W(0x68d84ea2), W(0x22a31f54)), x, 48, 64)
         == Regs(W(0x7246fad3), W(0x14e45506), W(0xff4ea3eb), W(0x6e10a476))
  {
    Outputs4();
    hide Rounds, Combine, F, G, H, I;
    var r := Regs(W(0x3f55edfd), W(0xca7d2dbd), W(0x68d84ea2), W(0x22a31f54));
    RoundsStart(r, x, 48);
    FourSteps(r, x, 48, 48, r, W(0x93aa2577), W(0x561e0689), W(0xcd85b8cb), W(0x1688dc85));
    FourSteps(r, x, 48, 52, Regs(W(0x93aa2577), W(0x561e0689), W(0xcd85b8cb), W(0x1688dc85)),
              W(0x5625a114), W(0x1e77fa61), W(0x392ad0d0), W(0x3450f42b));
    FourSteps(r, x, 48, 56, Regs(W(0x5625a114), W(0x1e77fa61), W(0x392ad0d0), W(0x3450f42b)),
              W(0x474a9c8c), W(0x30130182), W(0x36594b14), W(0xdfce00bc));
    FourSteps(r, x, 48, 60, Regs(W(0x474a9c8c), W(0x30130182), W(0x36594b14), W(0xdfce00bc)),
              W(0x7246fad3), W(0x14e45506), W(0xff4ea3eb), W(0x6e10a476));
  }

  /** The four rounds over the block of the empty message. */
  lemma EmptyRounds(x: seq<Word>)
    requires IsEmptyBlock(x)
    ensures Rounds(INIT, x, 0, 64) == Regs(W(0x7246fad3), W(0x14e45506), W(0xff4ea3eb), W(0x6e10a476))
  {
    EmptyRound1(x); EmptyRound2(x); EmptyRound3(x); EmptyRound4(x);
    hide Rounds;
    RoundsCompose(INIT, x, 0, 16, 32);
    RoundsCompose(INIT, x, 0, 32, 48);
    RoundsCompose(INIT, x, 0, 48, 64);
  }

  lemma EmptyCompress(x: seq<Word>)
    requires IsEmptyBlock(x)
    ensures Compress(INIT, x) == Regs(W(0xd98c1dd4), W(0x04b2008f), W(0x980980e9), W(0x7e42f8ec))
  {
    EmptyRounds(x);
    hide Rounds;
  }

  /** The empty message, padded, is one block: the octet 0x80 and zeros. */
  lemma EmptyBlock()
    ensures |Padded([])| == 64 && IsEmptyBlock(Words(Padded([])))
  {
    hide Padded, WordOf;
    EmptyLength();
    forall j | 0 <= j < 64 ensures Padded([])[j] == if j == 0 then 0x80 else 0 { EmptyOctet(j); }
    WordOfFirst();
  }

  lemma EmptyLength()
    ensures |Padded([])| == 64
  {
    assert PadCount(0) == 56;
  }

  lemma EmptyOctet(j: nat)
    requires j < 64
    ensures |Padded([])| == 64 && Padded([])[j] == if j == 0 then 0x80 else 0
  {
    EmptyLength();
    if j < 56 {
      PaddedAt([], j);
    } else {
      assert PadCount(0) == 56;
      assert Padded([])[j] == LengthOctets(0)[j - 56];
    }
    hide Padded;
  }

  lemma WordOfFirst()
    ensures WordOf(0x80, 0, 0, 0) == W(0x80) && WordOf(0, 0, 0, 0) == W(0)
  {
  }

  lemma EmptyOctets()
    ensures RegsOctets(Regs(W(0xd98c1dd4), W(0x04b2008f), W(0x980980e9), W(0x7e42f8ec)))
         == [0xd4, 0x1d, 0x8c, 0xd9, 0x8f, 0x00, 0xb2, 0x04, 0xe9, 0x80, 0x09, 0x98, 0xec, 0xf8, 0x42, 0x7e]
  {
  }

  /** Section A.5: the digest of the empty message is d41d8cd98f00b204e9800998ecf8427e. */
  lemma DigestOfNothing()
    ensures Digest([])
         == [0xd4, 0x1d, 0x8c, 0xd9, 0x8f, 0x00, 0xb2, 0x04, 0xe9, 0x80, 0x09, 0x98, 0xec, 0xf8, 0x42, 0x7e]
  {
    hide Compress, Words, Padded, RegsOctets;
    EmptyBlock();
    EmptyCompress(Words(Padded([])));
    EmptyOctets();
    assert Padded([])[..64] == Padded([]) && Padded([])[64..] == [];
  }
}
