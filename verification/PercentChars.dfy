/** The percent codec character by character: which stand for themselves, and which hex digits are
    written and read. */
module PercentChars {
  import opened Basics
  import opened PercentCodec

  function Character(c: Byte): char { (c as int) as char }

  /** These are encoded as they are. */
  predicate StaysItself(c: char) {
    'A' <= c <= 'Z' || 'a' <= c <= 'z' || '0' <= c <= '9' || c == '-' || c == '_' || c == '.' || c == '~'
  }

  /** A byte is encoded by itself, a space by a plus sign, and any other byte by a percent sign and
      its two lower-case hex digits, the high one first. */
  lemma EncodedByCharacter(c: Byte)
    ensures StaysItself(Character(c)) ==> Encode([c]) == [c]
    ensures Character(c) == ' ' ==> Encode([c]) == ['+' as int as Byte]
    ensures !StaysItself(Character(c)) && Character(c) != ' ' ==>
      |Encode([c])| == 3 && Character(Encode([c])[0]) == '%'
        && Character(Encode([c])[1]) == HexDigit(c >> 4) && Character(Encode([c])[2]) == HexDigit(c & 15)
  {
    assert Unreserved(c) <==> StaysItself(Character(c));
    DigitsByCharacter(c);
    assert (Character(c) == ' ' <==> c == SPACE) && !StaysItself(' ');
    assert '+' as int as Byte == PLUS && Character(PERCENT) == '%';
    hide Encode, Unreserved, StaysItself, High, Low, HexDigit;
  }

  /** The hex digit of a number below 16. */
  function HexDigit(d: Byte): char {
    if d < 16 then "0123456789abcdef"[d as int] else ' '
  }

  lemma DigitsByCharacter(c: Byte)
    ensures Character(High(c)) == HexDigit(c >> 4) && Character(Low(c)) == HexDigit(c & 15)
  {
  }

  /** The value of a hex digit, in either case. */
  lemma ReadByCharacter(c: Byte)
    ensures '0' <= Character(c) <= '9' ==> FromHex(c) as int == c as int - '0' as int
    ensures 'a' <= Character(c) <= 'f' ==> FromHex(c) as int == 10 + c as int - 'a' as int
    ensures 'A' <= Character(c) <= 'F' ==> FromHex(c) as int == 10 + c as int - 'A' as int
  {
  }

  /** What the decoder makes of the front of a text: a plus sign is a space, a percent sign with two
      characters behind it is one byte, without them it is dropped, and all else is itself. */
  lemma DecodedByCharacter(t: seq<Byte>)
    requires t != []
    ensures Character(t[0]) == '+' ==> Decode(t) == [' ' as int as Byte] + Decode(t[1..])
    ensures Character(t[0]) == '%' && |t| < 3 ==> Decode(t) == Decode(t[1..])
    ensures Character(t[0]) == '%' && |t| >= 3 ==>
      Decode(t) == [(16 * FromHex(t[1])) | FromHex(t[2])] + Decode(t[3..])
    ensures Character(t[0]) != '+' && Character(t[0]) != '%' ==> Decode(t) == [t[0]] + Decode(t[1..])
  {
    SignsByCharacter(t[0]);
    if |t| >= 3 { PairByCharacter(t[1], t[2]); }
    hide Pair, FromHex;
  }

  lemma SignsByCharacter(c: Byte)
    ensures (Character(c) == '+' <==> c == PLUS) && (Character(c) == '%' <==> c == PERCENT)
    ensures ' ' as int as Byte == SPACE && PLUS != PERCENT
  {
  }

  lemma PairByCharacter(h: Byte, l: Byte)
    ensures Pair(h, l) == (16 * FromHex(h)) | FromHex(l)
  {
  }

  /** Any other letter is read as if the digits went on. */
  lemma ReadsLetters(c: Byte)
    ensures 'g' <= Character(c) <= 'z' ==> FromHex(c) as int == 10 + c as int - 'a' as int
    ensures 'G' <= Character(c) <= 'Z' ==> FromHex(c) as int == 10 + c as int - 'A' as int
  {
  }

  // ---------------------------------------------------------------------------------
  // The stream from which the request handler reads a number in base 16.

  predicate IsHexCharacter(c: char) { '0' <= c <= '9' || 'a' <= c <= 'f' || 'A' <= c <= 'F' }

  function ValueOf(c: char): int
    requires IsHexCharacter(c)
  {
    c as int - (if c <= '9' then '0' as int else if c <= 'F' then 'A' as int - 10 else 'a' as int - 10)
  }

  lemma HexByCharacter(c: Byte)
    ensures IsHex(c) <==> IsHexCharacter(Character(c))
    ensures IsHex(c) ==> FromHex(c) as int == ValueOf(Character(c))
  {
    ReadByCharacter(c);
    HexClass(c);
    hide IsHex, FromHex;
  }

  lemma HexClass(c: Byte)
    ensures IsHex(c) <==> IsHexCharacter(Character(c))
  {
  }

  lemma StreamClasses(c: Byte)
    ensures IsBlank(c) <==> Character(c) == ' ' || '\t' <= Character(c) <= '\r'
    ensures IsX(c) <==> Character(c) == 'x' || Character(c) == 'X'
    ensures (c == 0x2B <==> Character(c) == '+') && (c == 0x2D <==> Character(c) == '-')
    ensures c == 0x30 <==> Character(c) == '0'
  {
  }

  /** What is read from two characters: one digit behind blanks or a sign, or the digits in front; and
      nothing if there is no digit, or only the start of "0x". */
  lemma StreamByCharacter(a: Byte, b: Byte)
    ensures var x, y := Character(a), Character(b);
      var r := ReadHex(a, b);
      && (IsHexCharacter(x) && IsHexCharacter(y) ==> r == Some(16 * (FromHex(a) as bv32) + (FromHex(b) as bv32)))
      && (IsHexCharacter(x) && !IsHexCharacter(y) && !(x == '0' && (y == 'x' || y == 'X')) ==> r == Some(FromHex(a) as bv32))
      && (x == '0' && (y == 'x' || y == 'X') ==> r == None)
      && (!IsHexCharacter(x) && !IsHexCharacter(y) ==> r == None)
      && ((x == ' ' || '\t' <= x <= '\r' || x == '+') && IsHexCharacter(y) ==> r == Some(FromHex(b) as bv32))
      && (x == '-' && IsHexCharacter(y) ==> r == Some(0 - (FromHex(b) as bv32)))
      && (!IsHexCharacter(x) && x != '+' && x != '-' && x != ' ' && !('\t' <= x <= '\r') ==> r == None)
  {
    HexClass(a);
    HexClass(b);
    StreamClasses(a);
    StreamClasses(b);
    hide IsHex, IsBlank, IsX, FromHex;
  }
}
