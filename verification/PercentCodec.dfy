/** The percent codec over zero-terminated strings, and the request handler's own decoder. */
module PercentCodec {
  import opened Basics

  type Byte = bv8

  const PERCENT: Byte := 0x25
  const PLUS: Byte := 0x2B
  const SPACE: Byte := 0x20

  predicate IsDigit(c: Byte) { 0x30 <= c <= 0x39 }

  predicate IsUpper(c: Byte) { 0x41 <= c <= 0x5A }

  predicate IsLower(c: Byte) { 0x61 <= c <= 0x7A }

  /** Letters and digits, and the marks - _ . and ~ */
  predicate Unreserved(c: Byte) {
    IsDigit(c) || IsUpper(c) || IsLower(c) || c == 0x2D || c == 0x5F || c == 0x2E || c == 0x7E
  }

  /** A hex digit's value; nonsense, but a value, for any other character. */
  function FromHex(c: Byte): Byte {
    if IsDigit(c) then c - 0x30 else (if IsUpper(c) then c + 0x20 else c) - 0x61 + 10
  }

  function ToHex(code: Byte): Byte {
    var d := code & 15;
    if d < 10 then 0x30 + d else 0x61 + (d - 10)
  }

  /** The shift of a signed char, which copies the sign bit down. */
  function ShiftDown4(c: Byte): Byte { (c >> 4) | (if c & 0x80 == 0 then 0 else 0xF0) }

  function Pair(h: Byte, l: Byte): Byte { (FromHex(h) << 4) | FromHex(l) }

  predicate IsHex(c: Byte) { IsDigit(c) || 0x41 <= c <= 0x46 || 0x61 <= c <= 0x66 }

  predicate IsLowerHex(c: Byte) { IsDigit(c) || 0x61 <= c <= 0x66 }

  function High(c: Byte): Byte { ToHex(ShiftDown4(c)) }

  function Low(c: Byte): Byte { ToHex(c & 15) }

  /** The two digits of a byte are its own lower-case ones, and only they. */
  lemma PairOfDigits(c: Byte)
    ensures Pair(High(c), Low(c)) == c && IsLowerHex(High(c)) && IsLowerHex(Low(c))
  {
  }

  lemma DigitsOfPair(h: Byte, l: Byte)
    requires IsLowerHex(h) && IsLowerHex(l)
    ensures High(Pair(h, l)) == h && Low(Pair(h, l)) == l
  {
  }

  function EncodeOne(c: Byte): (e: seq<Byte>)
    ensures 1 <= |e| <= 3
  {
    if Unreserved(c) then [c] else if c == SPACE then [PLUS] else [PERCENT, High(c), Low(c)]
  }

  function Encode(s: seq<Byte>): (e: seq<Byte>)
    ensures |s| <= |e| <= 3 * |s|
  {
    if s == [] then [] else EncodeOne(s[0]) + Encode(s[1..])
  }

  /** A percent sign without two characters behind it is dropped. */
  function Decode(t: seq<Byte>): (d: seq<Byte>)
    ensures |d| <= |t|
  {
    if t == [] then []
    else if t[0] == PERCENT then if |t| >= 3 then [Pair(t[1], t[2])] + Decode(t[3..]) else Decode(t[1..])
    else [if t[0] == PLUS then SPACE else t[0]] + Decode(t[1..])
  }

  lemma EncodeOneIsPlain(c: Byte)
    ensures Unreserved(c) ==> c != PERCENT && c != PLUS && c != SPACE && c != 0
  {
  }

  lemma DecodeOne(c: Byte, t: seq<Byte>)
    ensures Decode(EncodeOne(c) + t) == [c] + Decode(t)
  {
    hide High, Low, Pair, Unreserved;
    EncodeOneIsPlain(c);
    PairOfDigits(c);
    var e := EncodeOne(c) + t;
    assert e[|EncodeOne(c)|..] == t;
  }

  /** Decoding what was encoded gives it back. */
  lemma {:induction false} DecodeEncode(s: seq<Byte>)
    ensures Decode(Encode(s)) == s
  {
    if s != [] {
      DecodeOne(s[0], Encode(s[1..]));
      DecodeEncode(s[1..]);
      hide Decode, EncodeOne;
    }
  }

  /** The texts that the encoder can have made: plain characters and plus signs, and for every
      other byte the percent sign and its two lower-case digits. */
  predicate Canonical(t: seq<Byte>) {
    t == [] ||
    if t[0] == PERCENT then
      && |t| >= 3 && IsLowerHex(t[1]) && IsLowerHex(t[2])
      && !Unreserved(Pair(t[1], t[2])) && Pair(t[1], t[2]) != SPACE && Canonical(t[3..])
    else (Unreserved(t[0]) || t[0] == PLUS) && Canonical(t[1..])
  }

  lemma CanonicalOne(c: Byte, t: seq<Byte>)
    requires Canonical(t)
    ensures Canonical(EncodeOne(c) + t)
  {
    hide High, Low, Pair, Unreserved, IsLowerHex;
    EncodeOneIsPlain(c);
    PairOfDigits(c);
    var e := EncodeOne(c) + t;
    assert e[|EncodeOne(c)|..] == t;
  }

  lemma {:induction false} EncodedIsCanonical(s: seq<Byte>)
    ensures Canonical(Encode(s))
  {
    if s != [] {
      EncodedIsCanonical(s[1..]);
      CanonicalOne(s[0], Encode(s[1..]));
      hide Canonical, EncodeOne;
    }
  }

  lemma {:induction false} CanonicalEncodes(t: seq<Byte>)
    requires Canonical(t)
    ensures Encode(Decode(t)) == t
    decreases |t|
  {
    if t != [] {
      var n := if t[0] == PERCENT then 3 else 1;
      var c := if t[0] == PERCENT then Pair(t[1], t[2]) else if t[0] == PLUS then SPACE else t[0];
      CanonicalEncodes(t[n..]);
      EncodeOneIsPlain(t[0]);
      EncodeOneIsPlain(c);
      if n == 3 { DigitsOfPair(t[1], t[2]); }
      hide High, Low, Pair, Unreserved, IsLowerHex, Canonical;
      assert EncodeOne(c) == t[..n];
      assert Decode(t) == [c] + Decode(t[n..]);
      assert ([c] + Decode(t[n..]))[1..] == Decode(t[n..]);
      assert t[..n] + t[n..] == t;
    }
  }

  /** Encoding what was decoded gives the text back exactly when the text is canonical. */
  lemma {:induction false} EncodeDecode(t: seq<Byte>)
    ensures Encode(Decode(t)) == t <==> Canonical(t)
  {
    hide Encode, Decode, Canonical;
    EncodedIsCanonical(Decode(t));
    if Canonical(t) {
      CanonicalEncodes(t);
    }
  }

  predicate NoNul(s: seq<Byte>) { forall i :: 0 <= i < |s| ==> s[i] != 0 }

  lemma {:induction false} EncodedHasNoNul(s: seq<Byte>)
    ensures NoNul(Encode(s))
  {
    if s != [] {
      EncodedHasNoNul(s[1..]);
      EncodeOneHasNoNul(s[0]);
      hide EncodeOne;
    }
  }

  lemma EncodeOneHasNoNul(c: Byte)
    ensures NoNul(EncodeOne(c))
  {
    PairOfDigits(c);
    EncodeOneIsPlain(c);
    LowerHexIsNoNul(High(c));
    LowerHexIsNoNul(Low(c));
    hide High, Low, Pair, Unreserved, IsLowerHex;
  }

  lemma LowerHexIsNoNul(c: Byte)
    ensures IsLowerHex(c) ==> c != 0 && c != PERCENT && c != PLUS
  {
  }

  // ---------------------------------------------------------------------------------
  // The functions on zero-terminated strings.

  /** The string that starts at the head of mem. */
  function Text(mem: seq<Byte>): (t: seq<Byte>)
    requires 0 in mem
    ensures NoNul(t) && |t| < |mem| && mem[..|t|] == t && mem[|t|] == 0
  {
    if mem[0] == 0 then [] else [mem[0]] + Text(mem[1..])
  }

  lemma {:induction false} TextIs(mem: seq<Byte>, t: seq<Byte>)
    requires |t| < |mem| && mem[..|t|] == t && mem[|t|] == 0 && NoNul(t)
    ensures 0 in mem && Text(mem) == t
  {
    if t != [] {
      assert mem[0] == t[0];
      assert mem[1..][..|t| - 1] == t[1..];
      TextIs(mem[1..], t[1..]);
    }
  }

  method StrLen(str: array<Byte>) returns (n: nat)
    requires 0 in str[..]
    ensures n == |Text(str[..])|
  {
    n := 0;
    while str[n] != 0
      invariant 0 <= n <= |Text(str[..])|
      decreases str.Length - n
    {
      n := n + 1;
    }
  }

  lemma EncodeSnocs(t: seq<Byte>, k: nat)
    requires k < |t|
    ensures Encode(t[k..]) == EncodeOne(t[k]) + Encode(t[k + 1..])
  {
    assert t[k..][1..] == t[k + 1..];
  }

  lemma ZeroAtEnd(mem: seq<Byte>, t: seq<Byte>)
    requires |t| < |mem| && mem[..|t|] == t && mem[|t|] == 0 && NoNul(t)
    ensures forall k :: 0 <= k <= |t| ==> (mem[k] == 0 <==> k == |t|)
  {
    forall k | 0 <= k < |t| ensures mem[k] != 0 {
      assert mem[k] == t[k];
    }
  }

  method PutEncoded(buf: array<Byte>, pbuf: nat, c: Byte) returns (next: nat)
    requires pbuf + 3 <= buf.Length
    modifies buf
    ensures next <= pbuf + 3 && buf[..next] == old(buf[..pbuf]) + EncodeOne(c)
  {
    hide High, Low, Unreserved;
    next := pbuf;
    if Unreserved(c) {
      buf[next] := c;
      next := next + 1;
    } else if c == SPACE {
      buf[next] := PLUS;
      next := next + 1;
    } else {
      buf[next] := PERCENT;
      next := next + 1;
      buf[next] := ToHex(ShiftDown4(c));
      next := next + 1;
      buf[next] := ToHex(c & 15);
      next := next + 1;
      HighLow(c);
    }
  }

  lemma HighLow(c: Byte)
    ensures High(c) == ToHex(ShiftDown4(c)) && Low(c) == ToHex(c & 15)
  {
  }

  /** Writes the encoded string and its terminator, within the 3 n + 1 bytes allocated. */
  method UrlEncode(str: array<Byte>) returns (buf: array<Byte>)
    requires 0 in str[..]
    ensures fresh(buf) && buf.Length == 3 * |Text(str[..])| + 1
    ensures 0 in buf[..] && Text(buf[..]) == Encode(Text(str[..]))
  {
    hide Encode, EncodeOne, NoNul, Text;
    ghost var t := Text(str[..]);
    var len := StrLen(str);
    buf := new Byte[len * 3 + 1];
    var pstr, pbuf := 0, 0;
    assert t[0..] == t && buf[..0] == [];
    ZeroAtEnd(str[..], t);
    while str[pstr] != 0
      invariant 0 <= pstr <= |t| && 0 <= pbuf <= 3 * pstr
      invariant buf[..pbuf] + Encode(t[pstr..]) == Encode(t)
      decreases |t| - pstr
      modifies buf
    {
      EncodeSnocs(t, pstr);
      assert str[pstr] == str[..][pstr] == t[pstr];
      pbuf := PutEncoded(buf, pbuf, str[pstr]);
      pstr := pstr + 1;
    }
    assert str[..][pstr] == 0;
    EncodeNothing();
    assert t[pstr..] == [] && buf[..pbuf] == Encode(t);
    buf[pbuf] := 0;
    EncodedHasNoNul(t);
    assert buf[..][..pbuf] == Encode(t);
    TextIs(buf[..], Encode(t));
  }

  lemma EncodeNothing()
    ensures Encode([]) == [] && Decode([]) == []
  {
  }

  /** One step of decoding t at place k, behind what has been put out. */
  lemma DecodeRegroups(out: seq<Byte>, t: seq<Byte>, k: nat)
    requires k < |t|
    ensures out + Decode(t[k..]) ==
      if t[k] != PERCENT then out + [if t[k] == PLUS then SPACE else t[k]] + Decode(t[k + 1..])
      else if k + 2 < |t| then out + [Pair(t[k + 1], t[k + 2])] + Decode(t[k + 3..])
      else out + Decode(t[k + 1..])
  {
    hide Pair;
    assert t[k..][1..] == t[k + 1..];
    if t[k] != PERCENT {
      Regroup(out, if t[k] == PLUS then SPACE else t[k], Decode(t[k + 1..]));
    } else if k + 2 < |t| {
      assert t[k..][3..] == t[k + 3..];
      Regroup(out, Pair(t[k + 1], t[k + 2]), Decode(t[k + 3..]));
    }
  }

  method Put(buf: array<Byte>, k: nat, x: Byte) returns (next: nat)
    requires k < buf.Length
    modifies buf
    ensures next == k + 1 && buf[..next] == old(buf[..k]) + [x]
  {
    buf[k] := x;
    next := k + 1;
  }

  /** One pass of the decoding loop; t is the string that str holds. */
  method PutDecoded(str: array<Byte>, ghost t: seq<Byte>, buf: array<Byte>, pbuf: nat, pstr0: nat)
    returns (next: nat, pstr: nat)
    requires |t| < str.Length && str[..|t|] == t && str[|t|] == 0 && NoNul(t)
    requires pstr0 < |t| && pbuf < buf.Length && buf != str
    modifies buf
    ensures pbuf <= next <= pbuf + 1 && pstr0 < pstr <= |t|
    ensures buf[..next] + Decode(t[pstr..]) == old(buf[..pbuf]) + Decode(t[pstr0..])
  {
    hide Decode, Pair;
    next, pstr := pbuf, pstr0;
    ZeroAtEnd(str[..], t);
    assert forall k :: 0 <= k < |t| ==> str[k] == t[k];
    DecodeRegroups(buf[..pbuf], t, pstr);
    if str[pstr] == PERCENT {
      if str[pstr + 1] != 0 && str[pstr + 2] != 0 {
        next := Put(buf, next, Pair(str[pstr + 1], str[pstr + 2]));
        pstr := pstr + 2;
      }
    } else if str[pstr] == PLUS {
      next := Put(buf, next, SPACE);
    } else {
      next := Put(buf, next, str[pstr]);
    }
    pstr := pstr + 1;
  }

  /** Writes the decoded bytes and a terminator, within the n + 1 bytes allocated. */
  method UrlDecode(str: array<Byte>) returns (buf: array<Byte>)
    requires 0 in str[..]
    ensures fresh(buf) && buf.Length == |Text(str[..])| + 1
    ensures var d := Decode(Text(str[..])); buf[..|d|] == d && buf[|d|] == 0
  {
    hide Decode, NoNul;
    ghost var t := Text(str[..]);
    var len := StrLen(str);
    buf := new Byte[len + 1];
    var pstr, pbuf := 0, 0;
    assert t[0..] == t && str[..|t|] == t && str[|t|] == 0;
    hide Text;
    while str[pstr] != 0
      invariant 0 <= pbuf <= pstr <= |t|
      invariant buf[..pbuf] + Decode(t[pstr..]) == Decode(t)
      decreases |t| - pstr
      modifies buf
    {
      pbuf, pstr := PutDecoded(str, t, buf, pbuf, pstr);
    }
    ZeroAtEnd(str[..], t);
    assert str[..][pstr] == 0;
    EncodeNothing();
    assert t[pstr..] == [] && buf[..pbuf] == Decode(t);
    buf[pbuf] := 0;
  }

  /** The two calls one after the other give the string back. */
  method EncodeThenDecode(str: array<Byte>) returns (buf: array<Byte>)
    requires 0 in str[..]
    ensures 0 in buf[..] && Text(buf[..]) == Text(str[..])
  {
    var encoded := UrlEncode(str);
    buf := UrlDecode(encoded);
    DecodeEncode(Text(str[..]));
    TextIs(buf[..], Text(str[..]));
  }

  // ---------------------------------------------------------------------------------
  // The request handler's decoder, and the hex number it reads from a stream of two characters.

  predicate IsBlank(c: Byte) { c == 0x20 || 0x09 <= c <= 0x0D }

  predicate IsX(c: Byte) { c == 0x58 || c == 0x78 }

  function HexValue(c: Byte): bv32 { FromHex(c) as bv32 }

  /** What a stream that holds the characters a and b yields when an int is read from it in base 16:
      a blank is skipped, a sign is taken, the digits that follow are the number, and there must be
      one; "0x" is the start of a number that has no digits. */
  function ReadHex(a: Byte, b: Byte): Option<bv32> {
    if IsHex(a) then
      if IsHex(b) then Some(16 * HexValue(a) + HexValue(b))
      else if a == 0x30 && IsX(b) then None
      else Some(HexValue(a))
    else if !IsHex(b) then None
    else if IsBlank(a) || a == 0x2B then Some(HexValue(b))
    else if a == 0x2D then Some(0 - HexValue(b))
    else None
  }

  function ToChar(value: bv32): Byte { (value & 0xFF) as Byte }

  function HandlerDecode(t: seq<Byte>): (bool, seq<Byte>) {
    if t == [] then (true, [])
    else if t[0] == PERCENT then
      if |t| < 3 then (false, []) else
      match ReadHex(t[1], t[2])
      case None => (false, [])
      case Some(value) =>
        var (ok, rest) := HandlerDecode(t[3..]);
        (ok, [ToChar(value)] + rest)
    else
      var (ok, rest) := HandlerDecode(t[1..]);
      (ok, [if t[0] == PLUS then SPACE else t[0]] + rest)
  }

  method HandlerUrlDecode(input: seq<Byte>) returns (ok: bool, out: seq<Byte>)
    ensures (ok, out) == HandlerDecode(input)
  {
    hide HandlerDecode, ToChar;
    out := [];
    var i := 0;
    assert input[0..] == input && out + HandlerDecode(input).1 == HandlerDecode(input).1;
    while i < |input|
      invariant 0 <= i <= |input|
      invariant var r := HandlerDecode(input[i..]); HandlerDecode(input) == (r.0, out + r.1)
    {
      HandlerSteps(input, i, out);
      if input[i] == PERCENT {
        if i + 3 <= |input| {
          var value := ReadHex(input[i + 1], input[i + 2]);
          if value.None? {
            return false, out;
          }
          out := out + [ToChar(value.value)];
          i := i + 2;
        } else {
          return false, out;
        }
      } else if input[i] == PLUS {
        out := out + [SPACE];
      } else {
        out := out + [input[i]];
      }
      i := i + 1;
    }
    HandlerEnds();
    assert input[i..] == [] && out + [] == out;
    ok := true;
  }

  lemma Regroup(a: seq<Byte>, x: Byte, b: seq<Byte>)
    ensures a + ([x] + b) == a + [x] + b
  {
  }

  lemma HandlerEnds()
    ensures HandlerDecode([]) == (true, [])
  {
  }

  /** The handler's decoder on the rest of its input, behind what it has put out. */
  lemma HandlerSteps(t: seq<Byte>, k: nat, out: seq<Byte>)
    requires k < |t|
    ensures var r := HandlerDecode(t[k..]);
      if t[k] != PERCENT then
        var x := if t[k] == PLUS then SPACE else t[k];
        var s := HandlerDecode(t[k + 1..]); (r.0, out + r.1) == (s.0, out + [x] + s.1)
      else if k + 3 > |t| || ReadHex(t[k + 1], t[k + 2]).None? then (r.0, out + r.1) == (false, out)
      else
        var x := ToChar(ReadHex(t[k + 1], t[k + 2]).value);
        var s := HandlerDecode(t[k + 3..]); (r.0, out + r.1) == (s.0, out + [x] + s.1)
  {
    assert t[k..][1..] == t[k + 1..];
    hide ToChar;
    if t[k] != PERCENT {
      var x := if t[k] == PLUS then SPACE else t[k];
      Regroup(out, x, HandlerDecode(t[k + 1..]).1);
    } else if k + 3 <= |t| {
      assert t[k..][3..] == t[k + 3..];
      if ReadHex(t[k + 1], t[k + 2]).Some? {
        Regroup(out, ToChar(ReadHex(t[k + 1], t[k + 2]).value), HandlerDecode(t[k + 3..]).1);
      }
    }
    assert out + [] == out;
  }

  /** Every percent sign has two hex digits behind it. */
  predicate WellFormed(t: seq<Byte>) {
    t == [] ||
    if t[0] == PERCENT then |t| >= 3 && IsHex(t[1]) && IsHex(t[2]) && WellFormed(t[3..])
    else WellFormed(t[1..])
  }

  lemma ToCharOfPair(h: Byte, l: Byte)
    requires IsHex(h) && IsHex(l)
    ensures ReadHex(h, l).Some? && ToChar(ReadHex(h, l).value) == Pair(h, l)
  {
  }

  /** Without two hex digits the stream never yields what the other decoder makes of the characters. */
  lemma NeverTheSame(h: Byte, l: Byte)
    requires !(IsHex(h) && IsHex(l)) && ReadHex(h, l).Some?
    ensures ToChar(ReadHex(h, l).value) != Pair(h, l)
  {
  }

  lemma HeadCancels(x: Byte, a: seq<Byte>, y: Byte, b: seq<Byte>)
    ensures [x] + a == [y] + b <==> x == y && a == b
  {
    if [x] + a == [y] + b {
      assert ([x] + a)[0] == ([y] + b)[0] && ([x] + a)[1..] == ([y] + b)[1..];
    }
  }

  /** The two decoders agree exactly where each percent sign is followed by two hex digits. */
  lemma {:induction false} DecodersAgree(t: seq<Byte>)
    ensures HandlerDecode(t) == (true, Decode(t)) <==> WellFormed(t)
    decreases |t|
  {
    hide Pair, IsHex, FromHex, ToChar, ReadHex;
    if t != [] {
      if t[0] != PERCENT {
        DecodersAgree(t[1..]);
        var x := if t[0] == PLUS then SPACE else t[0];
        HeadCancels(x, HandlerDecode(t[1..]).1, x, Decode(t[1..]));
      } else if |t| >= 3 {
        DecodersAgree(t[3..]);
        if ReadHex(t[1], t[2]).Some? {
          HeadCancels(ToChar(ReadHex(t[1], t[2]).value), HandlerDecode(t[3..]).1, Pair(t[1], t[2]), Decode(t[3..]));
        }
        if IsHex(t[1]) && IsHex(t[2]) {
          ToCharOfPair(t[1], t[2]);
        } else if ReadHex(t[1], t[2]).Some? {
          NeverTheSame(t[1], t[2]);
        }
      }
    }
  }

  /** A percent sign at the end: one decoder drops it, the other fails. */
  lemma DecodersDiffer()
    ensures Decode([PERCENT]) == [] && HandlerDecode([PERCENT]) == (false, [])
  {
    assert [PERCENT][1..] == [];
  }

  lemma {:induction false} CanonicalIsWellFormed(t: seq<Byte>)
    requires Canonical(t)
    ensures WellFormed(t)
    decreases |t|
  {
    if t != [] {
      CanonicalIsWellFormed(t[if t[0] == PERCENT then 3 else 1..]);
    }
  }

  /** The handler's decoder undoes the encoder as well. */
  lemma HandlerDecodeEncode(s: seq<Byte>)
    ensures HandlerDecode(Encode(s)) == (true, s)
  {
    EncodedIsCanonical(s);
    CanonicalIsWellFormed(Encode(s));
    DecodersAgree(Encode(s));
    DecodeEncode(s);
  }
}
