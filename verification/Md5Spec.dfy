/** The MD5 message digest as RFC 1321 describes it: the reference the streaming
    code and the two-block search are both proved against. */
module Md5Spec {
  /** A 32-bit word. The wrapper keeps a proof that only moves words about from
      looking at their bits. */
  datatype Word = W(bits: bv32)
  type Octet = bv8

  /** The four-word register file A, B, C, D of section 3.3. */
  datatype Regs = Regs(a: Word, b: Word, c: Word, d: Word)

  const INIT := Regs(W(0x67452301), W(0xefcdab89), W(0x98badcfe), W(0x10325476))

  // Section 3.4: the auxiliary functions.
  function F(x: Word, y: Word, z: Word): Word { W((x.bits & y.bits) | (!x.bits & z.bits)) }
  function G(x: Word, y: Word, z: Word): Word { W((x.bits & z.bits) | (y.bits & !z.bits)) }
  function H(x: Word, y: Word, z: Word): Word { W(x.bits ^ y.bits ^ z.bits) }
  function I(x: Word, y: Word, z: Word): Word { W(y.bits ^ (x.bits | !z.bits)) }

  /** The auxiliary function that step i (counted from 0) uses. */
  function Mix(i: nat, x: Word, y: Word, z: Word): Word
    requires i < 64
  {
    if i < 16 then F(x, y, z) else if i < 32 then G(x, y, z)
    else if i < 48 then H(x, y, z) else I(x, y, z)
  }

  /** The message word that step i reads. */
  function WordIndex(i: nat): (k: nat)
    requires i < 64
    ensures k < 16
  {
    if i < 16 then i else if i < 32 then (5 * i + 1) % 16
    else if i < 48 then (3 * i + 5) % 16 else (7 * i) % 16
  }

  /** The rotation amount of step i. */
  function Shift(i: nat): (s: nat)
    requires i < 64
    ensures 0 < s < 32
  {
    if i < 16 then Pick4(i, 7, 12, 17, 22) else if i < 32 then Pick4(i, 5, 9, 14, 20)
    else if i < 48 then Pick4(i, 4, 11, 16, 23) else Pick4(i, 6, 10, 15, 21)
  }

  function Pick4(i: nat, s0: nat, s1: nat, s2: nat, s3: nat): (s: nat)
    ensures s in {s0, s1, s2, s3}
  {
    if i % 4 == 0 then s0 else if i % 4 == 1 then s1 else if i % 4 == 2 then s2 else s3
  }

  /** The sine table of section 3.4. */
  function T(i: nat): bv32
    requires i < 64
  {
    if i < 16 then
      if i == 0 then 0xd76aa478 else if i == 1 then 0xe8c7b756
      else if i == 2 then 0x242070db else if i == 3 then 0xc1bdceee
      else if i == 4 then 0xf57c0faf else if i == 5 then 0x4787c62a
      else if i == 6 then 0xa8304613 else if i == 7 then 0xfd469501
      else if i == 8 then 0x698098d8 else if i == 9 then 0x8b44f7af
      else if i == 10 then 0xffff5bb1 else if i == 11 then 0x895cd7be
      else if i == 12 then 0x6b901122 else if i == 13 then 0xfd987193
      else if i == 14 then 0xa679438e else 0x49b40821
    else if i < 32 then
      if i == 16 then 0xf61e2562 else if i == 17 then 0xc040b340
      else if i == 18 then 0x265e5a51 else if i == 19 then 0xe9b6c7aa
      else if i == 20 then 0xd62f105d else if i == 21 then 0x02441453
      else if i == 22 then 0xd8a1e681 else if i == 23 then 0xe7d3fbc8
      else if i == 24 then 0x21e1cde6 else if i == 25 then 0xc33707d6
      else if i == 26 then 0xf4d50d87 else if i == 27 then 0x455a14ed
      else if i == 28 then 0xa9e3e905 else if i == 29 then 0xfcefa3f8
      else if i == 30 then 0x676f02d9 else 0x8d2a4c8a
    else if i < 48 then
      if i == 32 then 0xfffa3942 else if i == 33 then 0x8771f681
      else if i == 34 then 0x6d9d6122 else if i == 35 then 0xfde5380c
      else if i == 36 then 0xa4beea44 else if i == 37 then 0x4bdecfa9
      else if i == 38 then 0xf6bb4b60 else if i == 39 then 0xbebfbc70
      else if i == 40 then 0x289b7ec6 else if i == 41 then 0xeaa127fa
      else if i == 42 then 0xd4ef3085 else if i == 43 then 0x04881d05
      else if i == 44 then 0xd9d4d039 else if i == 45 then 0xe6db99e5
      else if i == 46 then 0x1fa27cf8 else 0xc4ac5665
    else
      if i == 48 then 0xf4292244 else if i == 49 then 0x432aff97
      else if i == 50 then 0xab9423a7 else if i == 51 then 0xfc93a039
      else if i == 52 then 0x655b59c3 else if i == 53 then 0x8f0ccc92
      else if i == 54 then 0xffeff47d else if i == 55 then 0x85845dd1
      else if i == 56 then 0x6fa87e4f else if i == 57 then 0xfe2ce6e0
      else if i == 58 then 0xa3014314 else if i == 59 then 0x4e0811a1
      else if i == 60 then 0xf7537e82 else if i == 61 then 0xbd3af235
      else if i == 62 then 0x2ad7d2bb else 0xeb86d391
  }

  /** One operation: b plus the sum of a, the auxiliary value, a message word and a
      table entry rotated left by s. */
  function CombineBits(a: bv32, b: bv32, mix: bv32, x: bv32, s: nat, t: bv32): bv32
    requires s < 32
  {
    (a + mix + x + t).RotateLeft(s) + b
  }

  function Combine(a: Word, b: Word, mix: Word, x: Word, s: nat, t: bv32): Word
    requires s < 32
  {
    W(CombineBits(a.bits, b.bits, mix.bits, x.bits, s, t))
  }

  /** The value step i writes when the registers, oldest first, are a, d, c, b. */
  function StepOut(i: nat, a: Word, b: Word, c: Word, d: Word, x: Word): Word
    requires i < 64
  {
    Combine(a, b, Mix(i, b, c, d), x, Shift(i), T(i))
  }

  /** One step: the new value moves into b, the others shift round. */
  function Next(i: nat, r: Regs, x: Word): Regs
    requires i < 64
  {
    Regs(r.d, StepOut(i, r.a, r.b, r.c, r.d, x), r.b, r.c)
  }

  /** Steps lo .. hi-1 over the message block x. */
  function Rounds(r: Regs, x: seq<Word>, lo: nat, hi: nat): Regs
    requires |x| == 16 && lo <= hi <= 64
    decreases hi - lo, |x|
  {
    if lo == hi then r else Next(hi - 1, Rounds(r, x, lo, hi - 1), x[WordIndex(hi - 1)])
  }

  function Add(x: Word, y: Word): Word { W(x.bits + y.bits) }

  function AddRegs(r: Regs, s: Regs): Regs {
    Regs(Add(r.a, s.a), Add(r.b, s.b), Add(r.c, s.c), Add(r.d, s.d))
  }

  /** The compression function: 64 steps, then the register-wise sum. */
  function Compress(h: Regs, x: seq<Word>): Regs
    requires |x| == 16
  {
    AddRegs(h, Rounds(h, x, 0, 64))
  }

  lemma {:induction false} RoundsCompose(r: Regs, x: seq<Word>, lo: nat, mid: nat, hi: nat)
    requires |x| == 16 && lo <= mid <= hi <= 64
    ensures Rounds(Rounds(r, x, lo, mid), x, mid, hi) == Rounds(r, x, lo, hi)
    decreases hi
  {
    if mid < hi {
      hide Next, WordIndex;
      RoundsCompose(r, x, lo, mid, hi - 1);
    }
  }

  // Section 2: octets and words, low-order octet first.
  function WordOf(b0: Octet, b1: Octet, b2: Octet, b3: Octet): Word {
    W((b0 as bv32) | ((b1 as bv32) << 8) | ((b2 as bv32) << 16) | ((b3 as bv32) << 24))
  }

  function Words(block: seq<Octet>): (x: seq<Word>)
    requires |block| == 64
    ensures |x| == 16
  {
    seq(16, i requires 0 <= i < 16 =>
      WordOf(block[4 * i], block[4 * i + 1], block[4 * i + 2], block[4 * i + 3]))
  }

  /** Octet k (0 to 3) of a word. */
  function WordOctet(w: Word, k: nat): Octet
    requires k < 4
  {
    if k == 0 then (w.bits & 0xff) as Octet else if k == 1 then ((w.bits >> 8) & 0xff) as Octet
    else if k == 2 then ((w.bits >> 16) & 0xff) as Octet else ((w.bits >> 24) & 0xff) as Octet
  }

  function WordsToOctets(x: seq<Word>): (s: seq<Octet>)
    ensures |s| == 4 * |x|
  {
    seq(4 * |x|, i requires 0 <= i < 4 * |x| => WordOctet(x[i / 4], i % 4))
  }

  lemma WordRoundTrip(w: Word)
    ensures WordOf(WordOctet(w, 0), WordOctet(w, 1), WordOctet(w, 2), WordOctet(w, 3)) == w
  {
  }

  lemma OctetsOfWord(x: seq<Word>, i: nat, k: nat)
    requires i < |x| && k < 4
    ensures WordsToOctets(x)[4 * i + k] == WordOctet(x[i], k)
  {
    hide WordOctet;
  }

  lemma WordRead(x: seq<Word>, i: nat)
    requires |x| == 16 && i < 16
    ensures Words(WordsToOctets(x))[i] == x[i]
  {
    hide WordOf, WordOctet, WordsToOctets;
    WordRoundTrip(x[i]);
    OctetsOfWord(x, i, 0); OctetsOfWord(x, i, 1); OctetsOfWord(x, i, 2); OctetsOfWord(x, i, 3);
  }

  /** Section 2: writing words as octets and reading them back loses nothing. */
  lemma WordsRoundTrip(x: seq<Word>)
    requires |x| == 16
    ensures Words(WordsToOctets(x)) == x
  {
    hide WordOf, WordOctet, WordsToOctets, Words;
    var y := Words(WordsToOctets(x));
    forall i | 0 <= i < 16 ensures y[i] == x[i] { WordRead(x, i); }
  }

  /** The chaining value after every 64-octet block of data. */
  function Fold(h: Regs, data: seq<Octet>): Regs
    requires |data| % 64 == 0
    decreases |data|
  {
    if data == [] then h else Fold(Compress(h, Words(data[..64])), data[64..])
  }

  lemma {:induction false} FoldAppend(h: Regs, s: seq<Octet>, t: seq<Octet>)
    requires |s| % 64 == 0 && |t| % 64 == 0
    ensures Fold(h, s + t) == Fold(Fold(h, s), t)
    decreases |s|
  {
    hide Compress, Words;
    if s == [] {
      assert s + t == t;
    } else {
      assert (s + t)[..64] == s[..64] && (s + t)[64..] == s[64..] + t;
      FoldAppend(Compress(h, Words(s[..64])), s[64..], t);
    }
  }

  lemma FoldOne(h: Regs, s: seq<Octet>, block: seq<Octet>)
    requires |s| % 64 == 0 && |block| == 64
    ensures Fold(h, s + block) == Compress(Fold(h, s), Words(block))
  {
    hide Compress, Words;
    FoldAppend(h, s, block);
    assert block[..64] == block && block[64..] == [];
  }

  // Sections 3.1 and 3.2: padding and length.
  /** How many padding octets follow a message of n octets; 1 to 64 of them. */
  function PadCount(n: nat): (p: nat)
    ensures 1 <= p <= 64 && (n + p) % 64 == 56
  {
    if n % 64 < 56 then 56 - n % 64 else 120 - n % 64
  }

  lemma PadCountLeast(n: nat, q: nat)
    requires 1 <= q && (n + q) % 64 == 56
    ensures PadCount(n) <= q
  {
  }

  function Padding(p: nat): (s: seq<Octet>)
    requires 1 <= p
    ensures |s| == p
  {
    seq(p, i => if i == 0 then 0x80 else 0)
  }

  function Pow256(k: nat): (p: nat)
    ensures 1 <= p
  {
    if k == 0 then 1 else 256 * Pow256(k - 1)
  }

  /** The 64-bit length in bits, low-order octet first. */
  function LengthOctets(bits: nat): (s: seq<Octet>)
    ensures |s| == 8
  {
    seq(8, k requires 0 <= k < 8 => ((bits / Pow256(k)) % 256) as Octet)
  }

  const TWO64: nat := 0x1_0000_0000_0000_0000

  function Padded(m: seq<Octet>): (s: seq<Octet>)
    ensures |s| % 64 == 0
  {
    m + Padding(PadCount(|m|)) + LengthOctets(8 * |m| % TWO64)
  }

  /** Section 3.5: A, B, C, D written low-order octet first. */
  function RegsOctets(r: Regs): (s: seq<Octet>)
    ensures |s| == 16
  {
    WordsToOctets([r.a, r.b, r.c, r.d])
  }

  function Digest(m: seq<Octet>): (s: seq<Octet>)
    ensures |s| == 16
  {
    RegsOctets(Fold(INIT, Padded(m)))
  }
}
