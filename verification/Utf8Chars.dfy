/** The UTF-8 characters of RFC 3629, and the bit arithmetic by which the library spells
    and writes them. */
module Utf8Chars {
  type Octet = bv8
  type CodePoint = bv32

  datatype UtfError = Utf8Ok | NotEnoughRoom | InvalidLead | IncompleteSequence
                    | OverlongSequence | InvalidCodePoint

  function Low8(x: bv32): Octet { (x & 0xff) as Octet }

  predicate IsTrail(b: Octet) { b >> 6 == 2 }

  predicate IsSurrogate(cp: CodePoint) { 0xd800 <= cp <= 0xdfff }

  predicate IsCodePointValid(cp: CodePoint) { cp <= 0x10ffff && !IsSurrogate(cp) }

  /** The length that a lead octet announces; 0 for an octet that cannot lead. */
  function SequenceLength(lead: Octet): (n: nat)
    ensures n <= 4
  {
    if lead < 0x80 then 1 else if lead >> 5 == 0x6 then 2
    else if lead >> 4 == 0xe then 3 else if lead >> 3 == 0x1e then 4 else 0
  }

  predicate IsOverlong(cp: CodePoint, length: nat) {
    if cp < 0x80 then length != 1 else if cp < 0x800 then length != 2
    else if cp < 0x10000 then length != 3 else false
  }

  // The code point that 1 to 4 octets spell, as the get_sequence functions add it up.
  function Spell1(b0: Octet): CodePoint { b0 as CodePoint }

  function Spell2(b0: Octet, b1: Octet): CodePoint {
    (((b0 as CodePoint) << 6) & 0x7ff) + ((b1 as CodePoint) & 0x3f)
  }

  function Spell3(b0: Octet, b1: Octet, b2: Octet): CodePoint {
    (((b0 as CodePoint) << 12) & 0xffff) + (((b1 as CodePoint) << 6) & 0xfff) + ((b2 as CodePoint) & 0x3f)
  }

  function Spell4(b0: Octet, b1: Octet, b2: Octet, b3: Octet): CodePoint {
    (((b0 as CodePoint) << 18) & 0x1fffff) + (((b1 as CodePoint) << 12) & 0x3ffff)
    + (((b2 as CodePoint) << 6) & 0xfff) + ((b3 as CodePoint) & 0x3f)
  }

  function Spell(s: seq<Octet>): CodePoint
    requires 1 <= |s| <= 4
  {
    if |s| == 1 then Spell1(s[0]) else if |s| == 2 then Spell2(s[0], s[1])
    else if |s| == 3 then Spell3(s[0], s[1], s[2]) else Spell4(s[0], s[1], s[2], s[3])
  }

  // ---------------------------------------------------------------------------------
  // RFC 3629, section 4: the syntax of one character, and section 3: its octets.

  predicate Tail(b: Octet) { 0x80 <= b <= 0xbf }

  predicate Char1(b0: Octet) { b0 <= 0x7f }

  predicate Char2(b0: Octet, b1: Octet) { 0xc2 <= b0 <= 0xdf && Tail(b1) }

  predicate Char3(b0: Octet, b1: Octet, b2: Octet) {
    && ((b0 == 0xe0 && 0xa0 <= b1 <= 0xbf) || (0xe1 <= b0 <= 0xec && Tail(b1))
        || (b0 == 0xed && 0x80 <= b1 <= 0x9f) || (0xee <= b0 <= 0xef && Tail(b1)))
    && Tail(b2)
  }

  predicate Char4(b0: Octet, b1: Octet, b2: Octet, b3: Octet) {
    && ((b0 == 0xf0 && 0x90 <= b1 <= 0xbf) || (0xf1 <= b0 <= 0xf3 && Tail(b1))
        || (b0 == 0xf4 && 0x80 <= b1 <= 0x8f))
    && Tail(b2) && Tail(b3)
  }

  /** s is exactly one UTF8-char. */
  predicate IsChar(s: seq<Octet>) {
    || (|s| == 1 && Char1(s[0])) || (|s| == 2 && Char2(s[0], s[1]))
    || (|s| == 3 && Char3(s[0], s[1], s[2])) || (|s| == 4 && Char4(s[0], s[1], s[2], s[3]))
  }

  // The octets of section 3, by bit pattern.
  function Lead2(cp: CodePoint): Octet { Low8((cp >> 6) | 0xc0) }
  function Lead3(cp: CodePoint): Octet { Low8((cp >> 12) | 0xe0) }
  function Lead4(cp: CodePoint): Octet { Low8((cp >> 18) | 0xf0) }
  function Bits12(cp: CodePoint): Octet { Low8(((cp >> 12) & 0x3f) | 0x80) }
  function Bits6(cp: CodePoint): Octet { Low8(((cp >> 6) & 0x3f) | 0x80) }
  function Bits0(cp: CodePoint): Octet { Low8((cp & 0x3f) | 0x80) }

  /** How many octets section 3 gives a code point. */
  function Width(cp: CodePoint): (n: nat)
    ensures 1 <= n <= 4
  {
    if cp < 0x80 then 1 else if cp < 0x800 then 2 else if cp < 0x10000 then 3 else 4
  }

  /** The octets of a code point, by the table of section 3. */
  function Encode(cp: CodePoint): (s: seq<Octet>)
    ensures |s| == Width(cp)
  {
    if Width(cp) == 1 then [Low8(cp)]
    else if Width(cp) == 2 then [Lead2(cp), Bits0(cp)]
    else if Width(cp) == 3 then [Lead3(cp), Bits6(cp), Bits0(cp)]
    else [Lead4(cp), Bits12(cp), Bits6(cp), Bits0(cp)]
  }

  /** What the decoder checks of a complete sequence. */
  predicate Accepts(s: seq<Octet>) {
    && 1 <= |s| <= 4 && SequenceLength(s[0]) == |s| && (forall j :: 1 <= j < |s| ==> IsTrail(s[j]))
    && IsCodePointValid(Spell(s)) && !IsOverlong(Spell(s), |s|)
  }

  lemma AcceptsIsChar(s: seq<Octet>)
    ensures Accepts(s) <==> IsChar(s)
  {
    if |s| == 1 {
      AcceptsChar1(s[0]);
    } else if |s| == 2 {
      AcceptsChar2(s[0], s[1]);
    } else if |s| == 3 {
      AcceptsChar3(s[0], s[1], s[2]);
    } else if |s| == 4 {
      AcceptsChar4(s[0], s[1], s[2], s[3]);
    }
    hide SequenceLength, IsTrail, IsCodePointValid, IsOverlong, Char1, Char2, Char3, Char4,
         Spell1, Spell2, Spell3, Spell4;
  }

  lemma AcceptsChar1(b0: Octet)
    ensures (SequenceLength(b0) == 1 && IsCodePointValid(Spell1(b0)) && !IsOverlong(Spell1(b0), 1))
       <==> Char1(b0)
  {
  }

  lemma AcceptsChar2(b0: Octet, b1: Octet)
    ensures (&& SequenceLength(b0) == 2 && IsTrail(b1)
             && IsCodePointValid(Spell2(b0, b1)) && !IsOverlong(Spell2(b0, b1), 2))
       <==> Char2(b0, b1)
  {
  }

  lemma AcceptsChar3(b0: Octet, b1: Octet, b2: Octet)
    ensures (&& SequenceLength(b0) == 3 && IsTrail(b1) && IsTrail(b2)
             && IsCodePointValid(Spell3(b0, b1, b2)) && !IsOverlong(Spell3(b0, b1, b2), 3))
       <==> Char3(b0, b1, b2)
  {
  }

  lemma AcceptsChar4(b0: Octet, b1: Octet, b2: Octet, b3: Octet)
    ensures (&& SequenceLength(b0) == 4 && IsTrail(b1) && IsTrail(b2) && IsTrail(b3)
             && IsCodePointValid(Spell4(b0, b1, b2, b3)) && !IsOverlong(Spell4(b0, b1, b2, b3), 4))
       <==> Char4(b0, b1, b2, b3)
  {
  }

  /** Encoding a valid code point gives one character, which spells it. */
  lemma EncodeSpells(cp: CodePoint)
    requires IsCodePointValid(cp)
    ensures IsChar(Encode(cp)) && Spell(Encode(cp)) == cp
  {
    if Width(cp) == 1 {
      Spelled1(cp);
    } else if Width(cp) == 2 {
      Spelled2(cp);
    } else if Width(cp) == 3 {
      Spelled3(cp);
    } else {
      Spelled4(cp);
    }
    hide IsCodePointValid, Width, Low8, Lead2, Lead3, Lead4, Bits12, Bits6, Bits0,
         Char1, Char2, Char3, Char4, Spell1, Spell2, Spell3, Spell4;
  }

  lemma Spelled1(cp: CodePoint)
    requires Width(cp) == 1
    ensures Char1(Low8(cp)) && Spell1(Low8(cp)) == cp
  {
  }

  lemma Spelled2(cp: CodePoint)
    requires Width(cp) == 2
    ensures Char2(Lead2(cp), Bits0(cp)) && Spell2(Lead2(cp), Bits0(cp)) == cp
  {
  }

  lemma Spelled3(cp: CodePoint)
    requires Width(cp) == 3 && IsCodePointValid(cp)
    ensures Char3(Lead3(cp), Bits6(cp), Bits0(cp)) && Spell3(Lead3(cp), Bits6(cp), Bits0(cp)) == cp
  {
  }

  lemma Spelled4(cp: CodePoint)
    requires Width(cp) == 4 && IsCodePointValid(cp)
    ensures Char4(Lead4(cp), Bits12(cp), Bits6(cp), Bits0(cp))
    ensures Spell4(Lead4(cp), Bits12(cp), Bits6(cp), Bits0(cp)) == cp
  {
  }

  /** A character is the encoding of the code point it spells. */
  lemma SpellEncodes(s: seq<Octet>)
    requires IsChar(s)
    ensures IsCodePointValid(Spell(s)) && Encode(Spell(s)) == s
  {
    if |s| == 1 {
      Encoded1(s[0]);
    } else if |s| == 2 {
      Encoded2(s[0], s[1]);
    } else if |s| == 3 {
      Encoded3(s[0], s[1], s[2]);
    } else {
      Encoded4(s[0], s[1], s[2], s[3]);
    }
    hide IsCodePointValid, Width, Low8, Lead2, Lead3, Lead4, Bits12, Bits6, Bits0,
         Char1, Char2, Char3, Char4, Spell1, Spell2, Spell3, Spell4;
  }

  lemma Encoded1(b0: Octet)
    requires Char1(b0)
    ensures var cp := Spell1(b0); IsCodePointValid(cp) && Width(cp) == 1 && Low8(cp) == b0
  {
  }

  lemma Encoded2(b0: Octet, b1: Octet)
    requires Char2(b0, b1)
    ensures var cp := Spell2(b0, b1);
      IsCodePointValid(cp) && Width(cp) == 2 && Lead2(cp) == b0 && Bits0(cp) == b1
  {
  }

  lemma Encoded3(b0: Octet, b1: Octet, b2: Octet)
    requires Char3(b0, b1, b2)
    ensures var cp := Spell3(b0, b1, b2);
      IsCodePointValid(cp) && Width(cp) == 3 && Lead3(cp) == b0 && Bits6(cp) == b1 && Bits0(cp) == b2
  {
  }

  lemma Encoded4(b0: Octet, b1: Octet, b2: Octet, b3: Octet)
    requires Char4(b0, b1, b2, b3)
    ensures var cp := Spell4(b0, b1, b2, b3);
      && IsCodePointValid(cp) && Width(cp) == 4
      && Lead4(cp) == b0 && Bits12(cp) == b1 && Bits6(cp) == b2 && Bits0(cp) == b3
  {
  }
}
