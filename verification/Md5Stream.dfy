/** The streaming MD5 code: a 64-octet carry-over buffer, a 64-bit length kept in two
    32-bit words, 64 unrolled steps, padding and output. */
module Md5Stream {
  import opened Basics
  import opened Md5Spec

  const T_MASK: bv32 := 0xffffffff
  const TWO32: nat := 0x1_0000_0000

  /** The length of a message of n octets, in bits, as the two words of `count` hold it. */
  ghost predicate CountHolds(count0: nat, count1: nat, n: nat) {
    count0 < TWO32 && count1 < TWO32 && (count1 * TWO32 + count0) == 8 * n % TWO64
  }

  lemma CountOffset(count0: nat, count1: nat, n: nat)
    requires CountHolds(count0, count1, n)
    ensures (count0 / 8) % 64 == n % 64
  {
    var q := 8 * n / TWO64;
    var t := 0x80_0000_0000_0000 * q + 0x80_0000 * count1;
    var m := n - 64 * t;
    assert 8 * n == TWO64 * q + count1 * TWO32 + count0;
    assert count0 == 8 * m;
    ModShift(n, t, m);
  }

  lemma ModShift(n: nat, t: nat, m: int)
    requires n == 64 * t + m
    ensures n % 64 == m % 64
  {
  }

  /** The code's update of the two words: low word first, a carry when it wraps, and the bits
      that the shift by 3 pushed out of the low word. */
  function CountAdd(c0: nat, c1: nat, k: nat): (r: (nat, nat)) {
    var nbits := 8 * k % TWO32;
    var high := (c1 + k / 0x2000_0000) % TWO32;
    var low := (c0 + nbits) % TWO32;
    (low, if low < nbits then (high + 1) % TWO32 else high)
  }

  lemma CountAddHolds(c0: nat, c1: nat, n: nat, k: nat)
    requires CountHolds(c0, c1, n)
    ensures CountHolds(CountAdd(c0, c1, k).0, CountAdd(c0, c1, k).1, n + k)
  {
    SplitBits(k);
    var nbits := 8 * k % TWO32;
    var top := c1 + k / 0x2000_0000;
    if c0 + nbits < TWO32 {
      CountAdvance(c0, c1, n, k, c0 + nbits, top);
    } else {
      WrapOnce(c0 + nbits);
      ModNext(top);
      CountAdvance(c0, c1, n, k, c0 + nbits - TWO32, top + 1);
    }
    hide CountHolds;
  }

  lemma SplitBits(k: nat)
    ensures 8 * k == TWO32 * (k / 0x2000_0000) + 8 * k % TWO32
  {
  }

  lemma WrapOnce(x: nat)
    requires TWO32 <= x < 2 * TWO32
    ensures x % TWO32 == x - TWO32
  {
  }

  lemma ModNext(x: nat)
    ensures (x % TWO32 + 1) % TWO32 == (x + 1) % TWO32
  {
  }

  lemma CountAdvance(c0: nat, c1: nat, n: nat, k: nat, low: nat, top: nat)
    requires CountHolds(c0, c1, n) && low < TWO32
    requires top * TWO32 + low == c1 * TWO32 + c0 + 8 * k
    ensures CountHolds(low, top % TWO32, n + k)
  {
    var q := 8 * n / TWO64;
    assert top == TWO32 * (top / TWO32) + top % TWO32;
    ModUnique(8 * (n + k), q + top / TWO32, (top % TWO32) * TWO32 + low);
  }

  lemma ModUnique(x: nat, q: nat, r: nat)
    requires x == TWO64 * q + r && r < TWO64
    ensures x % TWO64 == r
  {
  }

  /** The octets of the two count words, low word first, are those of the 64-bit length. */
  lemma CountOctets(count0: nat, count1: nat, k: nat)
    requires count0 < TWO32 && count1 < TWO32 && k < 8
    ensures ((count1 * TWO32 + count0) / Pow256(k)) % 256
         == ((if k / 4 == 0 then count0 else count1) / Pow256(k % 4)) % 256
  {
    Powers();
    hide Pow256;
    if k < 4 { LowOctet(count0, count1, k); } else { HighOctet(count0, count1, k); }
  }

  lemma Powers()
    ensures Pow256(0) == 1 && Pow256(1) == 0x100 && Pow256(2) == 0x1_0000 && Pow256(3) == 0x100_0000
    ensures Pow256(4) == TWO32 && Pow256(5) == 0x100_0000_0000
    ensures Pow256(6) == 0x1_0000_0000_0000 && Pow256(7) == 0x100_0000_0000_0000
  {
  }

  lemma LowOctet(c0: nat, c1: nat, k: nat)
    requires c0 < TWO32 && k < 4
    ensures ((c1 * TWO32 + c0) / Pow256(k)) % 256 == (c0 / Pow256(k)) % 256
  {
    Powers();
    hide Pow256;
    if k == 0 { LowOctet0(c0, c1); } else if k == 1 { LowOctet1(c0, c1); }
    else if k == 2 { LowOctet2(c0, c1); } else { LowOctet3(c0, c1); }
  }

  lemma LowOctet0(c0: nat, c1: nat)
    ensures (c1 * TWO32 + c0) % 256 == c0 % 256
  {
    assert c1 * TWO32 + c0 == c0 + 256 * (c1 * 0x100_0000);
  }

  lemma LowOctet1(c0: nat, c1: nat)
    ensures ((c1 * TWO32 + c0) / 0x100) % 256 == (c0 / 0x100) % 256
  {
    assert (c1 * TWO32 + c0) / 0x100 == c0 / 0x100 + 256 * (c1 * 0x1_0000);
  }

  lemma LowOctet2(c0: nat, c1: nat)
    ensures ((c1 * TWO32 + c0) / 0x1_0000) % 256 == (c0 / 0x1_0000) % 256
  {
    assert (c1 * TWO32 + c0) / 0x1_0000 == c0 / 0x1_0000 + 256 * (c1 * 0x100);
  }

  lemma LowOctet3(c0: nat, c1: nat)
    ensures ((c1 * TWO32 + c0) / 0x100_0000) % 256 == (c0 / 0x100_0000) % 256
  {
    assert (c1 * TWO32 + c0) / 0x100_0000 == c0 / 0x100_0000 + 256 * c1;
  }

  lemma HighOctet(c0: nat, c1: nat, k: nat)
    requires c0 < TWO32 && 4 <= k < 8
    ensures (c1 * TWO32 + c0) / Pow256(k) == c1 / Pow256(k - 4)
  {
    Powers();
    hide Pow256;
  }

  /** What has been hashed of a message, and what waits in the buffer. */
  function FullBlocks(m: seq<Octet>): (s: seq<Octet>)
    ensures |s| % 64 == 0 && s + Tail(m) == m
  {
    m[..|m| - |m| % 64]
  }

  function Tail(m: seq<Octet>): seq<Octet> { m[|m| - |m| % 64..] }

  lemma RoundsStep(r: Regs, x: seq<Word>, lo: nat, i: nat)
    requires |x| == 16 && lo <= i < 64
    ensures Rounds(r, x, lo, i + 1) == Next(i, Rounds(r, x, lo, i), x[WordIndex(i)])
  {
    hide Next, WordIndex;
  }

  /** Four operations bring every register back to its place. */
  lemma FourSteps(r: Regs, x: seq<Word>, lo: nat, i: nat, was: Regs, a: Word, b: Word, c: Word, d: Word)
    requires |x| == 16 && lo <= i <= 60 && was == Rounds(r, x, lo, i)
    requires a == StepOut(i, was.a, was.b, was.c, was.d, x[WordIndex(i)])
    requires d == StepOut(i + 1, was.d, a, was.b, was.c, x[WordIndex(i + 1)])
    requires c == StepOut(i + 2, was.c, d, a, was.b, x[WordIndex(i + 2)])
    requires b == StepOut(i + 3, was.b, c, d, a, x[WordIndex(i + 3)])
    ensures Rounds(r, x, lo, i + 4) == Regs(a, b, c, d)
  {
    RoundsStep(r, x, lo, i);
    RoundsStep(r, x, lo, i + 1);
    RoundsStep(r, x, lo, i + 2);
    RoundsStep(r, x, lo, i + 3);
    hide Rounds, StepOut, WordIndex;
  }

  lemma SplitAt(m: seq<Octet>, k: nat)
    requires k % 64 == 0 && k <= |m| < k + 64
    ensures FullBlocks(m) == m[..k] && Tail(m) == m[k..] && |m| % 64 == |m| - k
  {
  }

  /** Appending leaves the full blocks alone and extends the tail. */
  lemma TailGrows(m: seq<Octet>, input: seq<Octet>)
    ensures var base := |m| - |m| % 64;
      && base % 64 == 0
      && (m + input)[..base] == FullBlocks(m)
      && (m + input)[base..] == Tail(m) + input
  {
  }

  lemma RoundsStart(r: Regs, x: seq<Word>, lo: nat)
    requires |x| == 16 && lo <= 64
    ensures Rounds(r, x, lo, lo) == r
  {
  }

  lemma SavedOctet(count0: nat, count1: nat, n: nat, i: nat)
    requires CountHolds(count0, count1, n) && i < 8
    ensures LengthOctets(8 * n % TWO64)[i]
         == (((if i / 4 == 0 then count0 else count1) / Pow256(i % 4)) % 256) as Octet
  {
    CountOctets(count0, count1, i);
  }

  /** abcd[k] */
  function Reg(r: Regs, k: nat): Word
    requires k < 4
  {
    if k == 0 then r.a else if k == 1 then r.b else if k == 2 then r.c else r.d
  }

  lemma DigestOctet(r: Regs, i: nat)
    requires i < 16
    ensures RegsOctets(r)[i] == WordOctet(Reg(r, i / 4), i % 4)
  {
    hide WordOctet;
    assert [r.a, r.b, r.c, r.d][i / 4] == Reg(r, i / 4);
  }

  lemma AssembledWord(b0: Octet, b1: Octet, b2: Octet, b3: Octet)
    ensures W((b0 as bv32) + ((b1 as bv32) << 8) + ((b2 as bv32) << 16) + ((b3 as bv32) << 24))
         == WordOf(b0, b1, b2, b3)
  {
  }

  const PAD: seq<Octet> := seq(64, i => if i == 0 then 0x80 else 0)

  lemma PadFormula(x: nat, n: nat)
    requires x % 64 == n % 64
    ensures (55 - x) % 64 + 1 == PadCount(n)
  {
  }

  lemma PadPrefix(p: nat)
    requires 1 <= p <= 64
    ensures |PAD| == 64 && PAD[..p] == Padding(p)
  {
  }

  /** memcpy(a + at, src, |src|) */
  method CopyInto(a: array<Octet>, at: nat, src: seq<Octet>)
    requires at + |src| <= a.Length
    modifies a
    ensures a[..] == old(a[..at]) + src + old(a[at + |src|..])
  {
    forall i | 0 <= i < |src| { a[at + i] := src[i]; }
  }

  lemma WordOrder2()
    ensures WordIndex(16) == 1 && WordIndex(17) == 6 && WordIndex(18) == 11 && WordIndex(19) == 0
    ensures WordIndex(20) == 5 && WordIndex(21) == 10 && WordIndex(22) == 15 && WordIndex(23) == 4
    ensures WordIndex(24) == 9 && WordIndex(25) == 14 && WordIndex(26) == 3 && WordIndex(27) == 8
    ensures WordIndex(28) == 13 && WordIndex(29) == 2 && WordIndex(30) == 7 && WordIndex(31) == 12
  {
  }

  lemma WordOrder3()
    ensures WordIndex(32) == 5 && WordIndex(33) == 8 && WordIndex(34) == 11 && WordIndex(35) == 14
    ensures WordIndex(36) == 1 && WordIndex(37) == 4 && WordIndex(38) == 7 && WordIndex(39) == 10
    ensures WordIndex(40) == 13 && WordIndex(41) == 0 && WordIndex(42) == 3 && WordIndex(43) == 6
    ensures WordIndex(44) == 9 && WordIndex(45) == 12 && WordIndex(46) == 15 && WordIndex(47) == 2
  {
  }

  lemma WordOrder4()
    ensures WordIndex(48) == 0 && WordIndex(49) == 7 && WordIndex(50) == 14 && WordIndex(51) == 5
    ensures WordIndex(52) == 12 && WordIndex(53) == 3 && WordIndex(54) == 10 && WordIndex(55) == 1
    ensures WordIndex(56) == 8 && WordIndex(57) == 15 && WordIndex(58) == 6 && WordIndex(59) == 13
    ensures WordIndex(60) == 4 && WordIndex(61) == 11 && WordIndex(62) == 2 && WordIndex(63) == 9
  {
  }

  class Md5State {
    var count0: nat
    var count1: nat
    var abcd: Regs
    const buf: array<Octet>
    /** Everything appended so far. */
    ghost var message: seq<Octet>

    ghost predicate Valid()
      reads this, buf
    {
      && buf.Length == 64
      && CountHolds(count0, count1, |message|)
      && abcd == Fold(INIT, FullBlocks(message))
      && buf[..|message| % 64] == Tail(message)
    }

    /** The first `base` octets have been compressed. */
    ghost predicate Hashed(base: nat)
      reads this`abcd, this`message
    {
      base % 64 == 0 && base <= |message| && abcd == Fold(INIT, message[..base])
    }

    constructor ()
      ensures Valid() && fresh(buf) && message == []
    {
      count0, count1 := 0, 0;
      abcd := Regs(W(0x67452301), W(T_MASK ^ 0x10325476), W(T_MASK ^ 0x67452301), W(0x10325476));
      buf := new Octet[64];
      message := [];
    }

    /** Round 1 of the block function: sixteen unrolled operations. */
    static method Round1(r: Regs, x: seq<Word>) returns (out: Regs)
      requires |x| == 16
      ensures out == Rounds(r, x, 0, 16)
    {
      hide Rounds, Combine, F, G, H, I;
      RoundsStart(r, x, 0);
      var a, b, c, d := r.a, r.b, r.c, r.d;
      ghost var was := r;
      a := Combine(a, b, F(b, c, d), x[0], 7, 0xd76aa478);
      d := Combine(d, a, F(a, b, c), x[1], 12, 0xe8c7b756);
      c := Combine(c, d, F(d, a, b), x[2], 17, 0x242070db);
      b := Combine(b, c, F(c, d, a), x[3], 22, 0xc1bdceee);
      assert Rounds(r, x, 0, 4) == Regs(a, b, c, d) by { FourSteps(r, x, 0, 0, was, a, b, c, d); }
      was := Regs(a, b, c, d);
      a := Combine(a, b, F(b, c, d), x[4], 7, 0xf57c0faf);
      d := Combine(d, a, F(a, b, c), x[5], 12, 0x4787c62a);
      c := Combine(c, d, F(d, a, b), x[6], 17, 0xa8304613);
      b := Combine(b, c, F(c, d, a), x[7], 22, 0xfd469501);
      assert Rounds(r, x, 0, 8) == Regs(a, b, c, d) by { FourSteps(r, x, 0, 4, was, a, b, c, d); }
      was := Regs(a, b, c, d);
      a := Combine(a, b, F(b, c, d), x[8], 7, 0x698098d8);
      d := Combine(d, a, F(a, b, c), x[9], 12, 0x8b44f7af);
      c := Combine(c, d, F(d, a, b), x[10], 17, 0xffff5bb1);
      b := Combine(b, c, F(c, d, a), x[11], 22, 0x895cd7be);
      assert Rounds(r, x, 0, 12) == Regs(a, b, c, d) by { FourSteps(r, x, 0, 8, was, a, b, c, d); }
      was := Regs(a, b, c, d);
      a := Combine(a, b, F(b, c, d), x[12], 7, 0x6b901122);
      d := Combine(d, a, F(a, b, c), x[13], 12, 0xfd987193);
      c := Combine(c, d, F(d, a, b), x[14], 17, 0xa679438e);
      b := Combine(b, c, F(c, d, a), x[15], 22, 0x49b40821);
      assert Rounds(r, x, 0, 16) == Regs(a, b, c, d) by { FourSteps(r, x, 0, 12, was, a, b, c, d); }
      out := Regs(a, b, c, d);
    }

    /** Round 2 of the block function: sixteen unrolled operations. */
    static method Round2(r: Regs, x: seq<Word>) returns (out: Regs)
      requires |x| == 16
      ensures out == Rounds(r, x, 16, 32)
    {
      hide Rounds, Combine, F, G, H, I;
      RoundsStart(r, x, 16);
      WordOrder2();
      var a, b, c, d := r.a, r.b, r.c, r.d;
      ghost var was := r;
      a := Combine(a, b, G(b, c, d), x[1], 5, 0xf61e2562);
      d := Combine(d, a, G(a, b, c), x[6], 9, 0xc040b340);
      c := Combine(c, d, G(d, a, b), x[11], 14, 0x265e5a51);
      b := Combine(b, c, G(c, d, a), x[0], 20, 0xe9b6c7aa);
      assert Rounds(r, x, 16, 20) == Regs(a, b, c, d) by { FourSteps(r, x, 16, 16, was, a, b, c, d); }
      was := Regs(a, b, c, d);
      a := Combine(a, b, G(b, c, d), x[5], 5, 0xd62f105d);
      d := Combine(d, a, G(a, b, c), x[10], 9, 0x02441453);
      c := Combine(c, d, G(d, a, b), x[15], 14, 0xd8a1e681);
      b := Combine(b, c, G(c, d, a), x[4], 20, 0xe7d3fbc8);
      assert Rounds(r, x, 16, 24) == Regs(a, b, c, d) by { FourSteps(r, x, 16, 20, was, a, b, c, d); }
      was := Regs(a, b, c, d);
      a := Combine(a, b, G(b, c, d), x[9], 5, 0x21e1cde6);
      d := Combine(d, a, G(a, b, c), x[14], 9, 0xc33707d6);
      c := Combine(c, d, G(d, a, b), x[3], 14, 0xf4d50d87);
      b := Combine(b, c, G(c, d, a), x[8], 20, 0x455a14ed);
      assert Rounds(r, x, 16, 28) == Regs(a, b, c, d) by { FourSteps(r, x, 16, 24, was, a, b, c, d); }
      was := Regs(a, b, c, d);
      a := Combine(a, b, G(b, c, d), x[13], 5, 0xa9e3e905);
      d := Combine(d, a, G(a, b, c), x[2], 9, 0xfcefa3f8);
      c := Combine(c, d, G(d, a, b), x[7], 14, 0x676f02d9);
      b := Combine(b, c, G(c, d, a), x[12], 20, 0x8d2a4c8a);
      assert Rounds(r, x, 16, 32) == Regs(a, b, c, d) by { FourSteps(r, x, 16, 28, was, a, b, c, d); }
      out := Regs(a, b, c, d);
    }

    /** Round 3 of the block function: sixteen unrolled operations. */
    static method Round3(r: Regs, x: seq<Word>) returns (out: Regs)
      requires |x| == 16
      ensures out == Rounds(r, x, 32, 48)
    {
      hide Rounds, Combine, F, G, H, I;
      RoundsStart(r, x, 32);
      WordOrder3();
      var a, b, c, d := r.a, r.b, r.c, r.d;
      ghost var was := r;
      a := Combine(a, b, H(b, c, d), x[5], 4, 0xfffa3942);
      d := Combine(d, a, H(a, b, c), x[8], 11, 0x8771f681);
      c := Combine(c, d, H(d, a, b), x[11], 16, 0x6d9d6122);
      b := Combine(b, c, H(c, d, a), x[14], 23, 0xfde5380c);
      assert Rounds(r, x, 32, 36) == Regs(a, b, c, d) by { FourSteps(r, x, 32, 32, was, a, b, c, d); }
      was := Regs(a, b, c, d);
      a := Combine(a, b, H(b, c, d), x[1], 4, 0xa4beea44);
      d := Combine(d, a, H(a, b, c), x[4], 11, 0x4bdecfa9);
      c := Combine(c, d, H(d, a, b), x[7], 16, 0xf6bb4b60);
      b := Combine(b, c, H(c, d, a), x[10], 23, 0xbebfbc70);
      assert Rounds(r, x, 32, 40) == Regs(a, b, c, d) by { FourSteps(r, x, 32, 36, was, a, b, c, d); }
      was := Regs(a, b, c, d);
      a := Combine(a, b, H(b, c, d), x[13], 4, 0x289b7ec6);
      d := Combine(d, a, H(a, b, c), x[0], 11, 0xeaa127fa);
      c := Combine(c, d, H(d, a, b), x[3], 16, 0xd4ef3085);
      b := Combine(b, c, H(c, d, a), x[6], 23, 0x04881d05);
      assert Rounds(r, x, 32, 44) == Regs(a, b, c, d) by { FourSteps(r, x, 32, 40, was, a, b, c, d); }
      was := Regs(a, b, c, d);
      a := Combine(a, b, H(b, c, d), x[9], 4, 0xd9d4d039);
      d := Combine(d, a, H(a, b, c), x[12], 11, 0xe6db99e5);
      c := Combine(c, d, H(d, a, b), x[15], 16, 0x1fa27cf8);
      b := Combine(b, c, H(c, d, a), x[2], 23, 0xc4ac5665);
      assert Rounds(r, x, 32, 48) == Regs(a, b, c, d) by { FourSteps(r, x, 32, 44, was, a, b, c, d); }
      out := Regs(a, b, c, d);
    }

    /** Round 4 of the block function: sixteen unrolled operations. */
    static method Round4(r: Regs, x: seq<Word>) returns (out: Regs)
      requires |x| == 16
      ensures out == Rounds(r, x, 48, 64)
    {
      hide Rounds, Combine, F, G, H, I;
      RoundsStart(r, x, 48);
      WordOrder4();
      var a, b, c, d := r.a, r.b, r.c, r.d;
      ghost var was := r;
      a := Combine(a, b, I(b, c, d), x[0], 6, 0xf4292244);
      d := Combine(d, a, I(a, b, c), x[7], 10, 0x432aff97);
      c := Combine(c, d, I(d, a, b), x[14], 15, 0xab9423a7);
      b := Combine(b, c, I(c, d, a), x[5], 21, 0xfc93a039);
      assert Rounds(r, x, 48, 52) == Regs(a, b, c, d) by { FourSteps(r, x, 48, 48, was, a, b, c, d); }
      was := Regs(a, b, c, d);
      a := Combine(a, b, I(b, c, d), x[12], 6, 0x655b59c3);
      d := Combine(d, a, I(a, b, c), x[3], 10, 0x8f0ccc92);
      c := Combine(c, d, I(d, a, b), x[10], 15, 0xffeff47d);
      b := Combine(b, c, I(c, d, a), x[1], 21, 0x85845dd1);
      assert Rounds(r, x, 48, 56) == Regs(a, b, c, d) by { FourSteps(r, x, 48, 52, was, a, b, c, d); }
      was := Regs(a, b, c, d);
      a := Combine(a, b, I(b, c, d), x[8], 6, 0x6fa87e4f);
      d := Combine(d, a, I(a, b, c), x[15], 10, 0xfe2ce6e0);
      c := Combine(c, d, I(d, a, b), x[6], 15, 0xa3014314);
      b := Combine(b, c, I(c, d, a), x[13], 21, 0x4e0811a1);
      assert Rounds(r, x, 48, 60) == Regs(a, b, c, d) by { FourSteps(r, x, 48, 56, was, a, b, c, d); }
      was := Regs(a, b, c, d);
      a := Combine(a, b, I(b, c, d), x[4], 6, 0xf7537e82);
      d := Combine(d, a, I(a, b, c), x[11], 10, 0xbd3af235);
      c := Combine(c, d, I(d, a, b), x[2], 15, 0x2ad7d2bb);
      b := Combine(b, c, I(c, d, a), x[9], 21, 0xeb86d391);
      assert Rounds(r, x, 48, 64) == Regs(a, b, c, d) by { FourSteps(r, x, 48, 60, was, a, b, c, d); }
      out := Regs(a, b, c, d);
    }

    /** The sixteen words of a block, assembled octet by octet. */
    static method LoadWords(data: seq<Octet>) returns (x: seq<Word>)
      requires |data| == 64
      ensures x == Words(data)
    {
      x := [];
      var i, xp := 0, 0;
      while i < 16
        invariant 0 <= i <= 16 && xp == 4 * i
        invariant x == Words(data)[..i]
      {
        AssembledWord(data[xp], data[xp + 1], data[xp + 2], data[xp + 3]);
        x := x + [W((data[xp] as bv32) + ((data[xp + 1] as bv32) << 8)
                    + ((data[xp + 2] as bv32) << 16) + ((data[xp + 3] as bv32) << 24))];
        i, xp := i + 1, xp + 4;
      }
    }

    method Process(data: seq<Octet>)
      requires |data| == 64
      modifies this`abcd
      ensures abcd == Compress(old(abcd), Words(data))
    {
      hide Rounds;
      var x := LoadWords(data);
      var r1 := Round1(abcd, x);
      var r2 := Round2(r1, x);
      var r3 := Round3(r2, x);
      var r4 := Round4(r3, x);
      RoundsCompose(abcd, x, 0, 16, 32);
      RoundsCompose(abcd, x, 0, 32, 48);
      RoundsCompose(abcd, x, 0, 48, 64);
      abcd := AddRegs(abcd, r4);
    }

    /** Eight times the octets onto the 64-bit count, which is kept in two words. */
    method AddLength(nbytes: nat, ghost n: nat)
      requires CountHolds(count0, count1, n)
      modifies this`count0, this`count1
      ensures CountHolds(count0, count1, n + nbytes)
    {
      hide CountHolds;
      var nbits := 8 * nbytes % TWO32;
      CountAddHolds(count0, count1, n, nbytes);
      count1 := (count1 + nbytes / 0x2000_0000) % TWO32;
      count0 := (count0 + nbits) % TWO32;
      if count0 < nbits {
        count1 := (count1 + 1) % TWO32;
      }
    }

    method ProcessBlock(data: seq<Octet>, ghost base: nat)
      requires |data| == 64 && Hashed(base) && base + 64 <= |message|
      requires data == message[base..base + 64]
      modifies this`abcd
      ensures Hashed(base + 64)
    {
      hide Compress, Words, Fold;
      assert message[..base] + data == message[..base + 64];
      FoldOne(INIT, message[..base], data);
      Process(data);
    }

    /** Append data[..nbytes]. The C code forms offset + nbytes in an int. */
    method Append(data: seq<Octet>, nbytes: int)
      requires Valid() && nbytes <= |data|
      requires |message| % 64 + nbytes <= INT_MAX
      modifies this, buf
      ensures Valid()
      ensures message == old(message) + if nbytes <= 0 then [] else data[..nbytes]
    {
      hide Fold, CountHolds, FullBlocks, Tail;
      CountOffset(count0, count1, |message|);
      var p, left := 0, nbytes;
      var offset := (count0 / 8) % 64;
      if nbytes <= 0 {
        return;
      }
      var input := data[..nbytes];
      AddLength(nbytes, |message|);
      ghost var base := |message| - offset;
      TailGrows(message, input);
      message := message + input;

      if offset != 0 {
        var copy := FillBuffer(input, offset, base);
        if offset + copy < 64 {
          return;
        }
        p := p + copy;
        left := left - copy;
        base := base + 64;
      }
      AppendBlocks(input, p, left, base);
    }

    /** Top up the buffer, and compress it once it holds a block; its octets start at base. */
    method FillBuffer(data: seq<Octet>, offset: nat, ghost base: nat) returns (copy: nat)
      requires buf.Length == 64 && 0 < offset < 64 && CountHolds(count0, count1, |message|)
      requires Hashed(base) && base + offset + |data| == |message|
      requires buf[..offset] + data == message[base..]
      modifies this`abcd, buf
      ensures offset + |data| < 64 ==> copy == |data| && Valid()
      ensures offset + |data| >= 64 ==> copy == 64 - offset && Hashed(base + 64)
    {
      hide Fold, CountHolds, FullBlocks, Tail;
      copy := if offset + |data| > 64 then 64 - offset else |data|;
      ghost var held := buf[..offset];
      CopyInto(buf, offset, data[..copy]);
      assert buf[..offset + copy] == held + data[..copy];
      assert held + data[..copy] == (held + data)[..offset + copy];
      assert message[base..][..offset + copy] == message[base..base + offset + copy];
      if offset + copy < 64 {
        SplitAt(message, base);
      } else {
        ProcessBlock(buf[..], base);
      }
    }

    /** Compress block by block straight from the input, and buffer what remains. */
    method AppendBlocks(data: seq<Octet>, start: nat, size: nat, ghost base: nat)
      requires start + size == |data| && Hashed(base) && data[start..] == message[base..]
      requires buf.Length == 64 && CountHolds(count0, count1, |message|)
      modifies this`abcd, buf
      ensures Valid()
    {
      hide Fold, CountHolds, FullBlocks, Tail;
      var p, left := start, size;
      ghost var done := base;
      while left >= 64
        invariant start <= p && 0 <= left && p + left == |data| && 0 <= done
        invariant message == old(message) && Hashed(done) && done + left == |message|
        invariant data[p..] == message[done..]
      {
        assert data[p..p + 64] == data[p..][..64] == message[done..][..64] == message[done..done + 64];
        ProcessBlock(data[p..p + 64], done);
        p := p + 64;
        left := left - 64;
        done := done + 64;
      }
      SplitAt(message, done);
      if left != 0 {
        CopyInto(buf, 0, data[p..p + left]);
      }
    }

    /** The length from before the padding, as eight octets. */
    method SaveLength() returns (data: seq<Octet>)
      requires Valid()
      ensures data == LengthOctets(8 * |message| % TWO64)
    {
      hide LengthOctets, CountHolds, Pow256, Fold;
      data := [];
      var i := 0;
      while i < 8
        invariant 0 <= i <= 8 && data == LengthOctets(8 * |message| % TWO64)[..i]
      {
        SavedOctet(count0, count1, |message|, i);
        data := data + [(((if i / 4 == 0 then count0 else count1) / Pow256(i % 4)) % 256) as Octet];
        i := i + 1;
      }
    }

    /** Write A, B, C, D, each low-order octet first. */
    method WriteDigest() returns (digest: seq<Octet>)
      ensures digest == RegsOctets(abcd)
    {
      hide WordOctet, WordsToOctets;
      digest := [];
      var i := 0;
      while i < 16
        invariant 0 <= i <= 16 && digest == RegsOctets(abcd)[..i]
      {
        DigestOctet(abcd, i);
        digest := digest + [WordOctet(Reg(abcd, i / 4), i % 4)];
        i := i + 1;
      }
    }

    /** Pad to 56 modulo 64 and append the length from before the padding. */
    method AppendPadding()
      requires Valid()
      modifies this, buf
      ensures Valid() && message == Padded(old(message))
    {
      hide Fold, CountHolds, LengthOctets, Padding, PadCount, Tail, FullBlocks;
      var data := SaveLength();
      CountOffset(count0, count1, |message|);
      var pad := ((55 - count0 / 8) % 64) + 1;
      PadFormula(count0 / 8, |message|);
      PadPrefix(pad);
      Append(PAD, pad);
      Append(data, 8);
      assert data[..8] == data;
    }

    /** Pad, then write A, B, C, D. */
    method Finish() returns (digest: seq<Octet>)
      requires Valid()
      modifies this, buf
      ensures digest == Digest(old(message))
      ensures Valid() && message == Padded(old(message)) && Tail(message) == []
    {
      hide Fold, CountHolds, Padded, RegsOctets, Tail, FullBlocks;
      AppendPadding();
      SplitAt(message, |message|);
      assert message[..|message|] == message && message[|message|..] == [];
      digest := WriteDigest();
    }
  }

  function Concat(chunks: seq<seq<Octet>>): seq<Octet> {
    if chunks == [] then [] else Concat(Front(chunks)) + Last(chunks)
  }

  /** However a message is cut into chunks, streaming them gives the digest of the whole. */
  method DigestOfChunks(chunks: seq<seq<Octet>>) returns (digest: seq<Octet>)
    requires forall c | c in chunks :: |c| <= INT_MAX - 63
    ensures digest == Digest(Concat(chunks))
  {
    hide Digest, Fold, CountHolds, Tail, FullBlocks;
    var state := new Md5State();
    var i := 0;
    while i < |chunks|
      invariant 0 <= i <= |chunks| && state.Valid() && fresh(state) && fresh(state.buf)
      invariant state.message == Concat(chunks[..i])
    {
      assert chunks[..i + 1][..i] == chunks[..i] && chunks[..i + 1][i] == chunks[i];
      state.Append(chunks[i], |chunks[i]|);
      assert chunks[i][..|chunks[i]|] == chunks[i];
      i := i + 1;
    }
    assert chunks[..|chunks|] == chunks;
    digest := state.Finish();
  }
}
