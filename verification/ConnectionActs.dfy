/** What one read leads to, told from the parse of the buffer alone: when the connection refuses,
    fails, hands over, answers or reads on, and how a Content-Length is read. */
module ConnectionActs {
  import opened Basics
  import opened RequestSpec
  import opened RequestGrammar
  import opened RequestPrint
  import opened RequestChars
  import opened ConnectionSpec

  // ---------------------------------------------------------------------------------
  // The length.

  /** Header i is the first Content-Length. */
  predicate FirstAt(hs: seq<Header>, i: int) {
    0 <= i < |hs| && hs[i].name == "Content-Length" && forall j :: 0 <= j < i ==> hs[j].name != "Content-Length"
  }

  predicate NoneGiven(hs: seq<Header>) { forall j :: 0 <= j < |hs| ==> hs[j].name != "Content-Length" }

  lemma {:induction false} FirstCounts(hs: seq<Header>, before: nat, i: nat)
    requires FirstAt(hs, i)
    ensures ContentLength(hs, before) == Unsigned(hs[i].value)
    decreases i
  {
    hide Unsigned;
    if i > 0 {
      assert hs[1..][i - 1] == hs[i];
      FirstCounts(hs[1..], before, i - 1);
    }
  }

  lemma {:induction false} NoneCounts(hs: seq<Header>, before: nat)
    requires NoneGiven(hs)
    ensures ContentLength(hs, before) == Some(before)
    decreases |hs|
  {
    hide Unsigned;
    if hs != [] {
      NoneCounts(hs[1..], before);
    }
  }

  lemma {:induction false} GivenOrNot(hs: seq<Header>) returns (i: int)
    ensures if i < 0 then NoneGiven(hs) else FirstAt(hs, i)
    decreases |hs|
  {
    if hs == [] {
      i := -1;
    } else if hs[0].name == "Content-Length" {
      i := 0;
    } else {
      i := GivenOrNot(hs[1..]);
      var t := hs[1..];
      if i >= 0 {
        i := i + 1;
        assert hs[i] == t[i - 1];
        assert forall j :: 1 <= j < i ==> hs[j] == t[j - 1];
      } else {
        assert forall j :: 1 <= j < |hs| ==> hs[j] == t[j - 1];
      }
    }
  }

  predicate Decimals(s: string) { s != "" && forall i :: 0 <= i < |s| ==> s[i] in "0123456789" }

  /** A text is read as a number exactly if it is decimal digits, with or without a sign, for a
      number below 2^64; a minus sign counts down from 2^64. */
  lemma ReadsExactly(sign: string, digits: string)
    requires sign == "" || sign == "+" || sign == "-"
    requires sign == "" && digits != "" ==> digits[0] !in "+-"
    ensures Unsigned(sign + digits) ==
      if !Decimals(digits) || Value(digits) >= TWO64 then None
      else if sign == "-" && Value(digits) != 0 then Some(TWO64 - Value(digits)) else Some(Value(digits))
  {
    var s := sign + digits;
    DigitsByCharacter(digits);
    if sign == "" {
      assert s == digits;
    } else {
      assert s[0] == sign[0] && s[1..] == digits;
    }
    if Decimals(digits) {
      ValueIsNat(digits);
      Minus(Value(digits));
    }
    hide Value, AllDigits;
  }

  lemma Minus(v: nat)
    ensures v < TWO64 ==> (TWO64 - v) % TWO64 == if v == 0 then 0 else TWO64 - v
  {
  }

  lemma DigitsByCharacter(s: string)
    ensures Decimals(s) <==> s != "" && AllDigits(s)
  {
    forall i | 0 <= i < |s| ensures IsDigit(s[i]) <==> s[i] in "0123456789" { ClassesByCharacter(s[i]); }
    hide IsDigit;
  }

  /** The decimal text of every number below 2^64 is read as that number. */
  lemma ReadsDecimal(n: nat)
    ensures Unsigned(Decimal(n)) == if n < TWO64 then Some(n) else None
  {
    hide Unsigned, Decimal, Value, IsNumber;
    DecimalValue(n);
    ReadsNumber(Decimal(n));
  }

  lemma ReadsNumber(s: string)
    requires IsNumber(s)
    ensures Unsigned(s) == if Value(s) < TWO64 then Some(Value(s)) else None
  {
    DigitsByCharacter(s);
    assert s[0] in "0123456789" && "" + s == s;
    hide Unsigned, Value;
    ReadsExactly("", s);
  }

  // ---------------------------------------------------------------------------------
  // The acts.

  /** The request names a length that cannot be read. */
  ghost predicate Unreadable(hs: seq<Header>) {
    exists i :: FirstAt(hs, i) && Unsigned(hs[i].value).None?
  }

  lemma LengthCases(hs: seq<Header>, before: nat)
    ensures ContentLength(hs, before).None? <==> Unreadable(hs)
    ensures NoneGiven(hs) ==> ContentLength(hs, before) == Some(before)
    ensures forall i :: FirstAt(hs, i) ==> ContentLength(hs, before) == Unsigned(hs[i].value)
  {
    hide Unsigned, ContentLength;
    forall i | FirstAt(hs, i) ensures ContentLength(hs, before) == Unsigned(hs[i].value) { FirstCounts(hs, before, i); }
    var k := GivenOrNot(hs);
    if k < 0 { NoneCounts(hs, before); }
  }

  /** What a read does, by the parse of what the buffer then holds. */
  lemma ReadActs(c: Conn, chunk: string, boundary: bool)
    ensures var text := c.kept + chunk;
      var o, (act, parsed, d) := ParseFrom(Cleared(0, 0), text), Read(c, chunk, boundary);
      var r := o.conf.req;
      var upload := boundary && (r.uri == "/uploadfiletodb.action" || r.uri == "/uploadfile.action");
      && (act == Refuse <==> o.verdict.Bad?)
      && (act == Fail <==> o.verdict.Good? && Unreadable(r.headers))
      && (act == HandOver <==> o.verdict.Good? && !Unreadable(r.headers) && r.verb == "POST" && upload)
      && (act == Answer && r.verb != "POST" <==> o.verdict.Good? && !Unreadable(r.headers) && r.verb != "POST")
      && (act == Answer && r.verb == "POST" <==>
          (o.verdict.Good? && !Unreadable(r.headers) && r.verb == "POST" && !upload && |text| == o.used + d.expected))
      && (o.verdict.Indeterminate? ==> act == ReadOn)
  {
    var text := c.kept + chunk;
    StaleVersionForgotten(c.major, c.minor, text);
    LengthCases(ParseFrom(Cleared(0, 0), text).conf.req.headers, c.expected);
    hide ParseFrom, ContentLength, Unreadable, NoneGiven, FirstAt;
  }

  /** What a read remembers: the first length given, or else the one from before; and the buffer
      only while the body of a post is awaited. */
  lemma ReadRemembers(c: Conn, chunk: string, boundary: bool)
    ensures var text := c.kept + chunk;
      var o, (act, parsed, d) := ParseFrom(Cleared(0, 0), text), Read(c, chunk, boundary);
      var hs := o.conf.req.headers;
      && (!o.verdict.Good? || NoneGiven(hs) || Unreadable(hs) ==> d.expected == c.expected)
      && (o.verdict.Good? ==>
          forall i :: FirstAt(hs, i) && Unsigned(hs[i].value).Some? ==> d.expected == Unsigned(hs[i].value).value)
      && (!o.verdict.Good? || o.conf.req.verb != "POST" || act == Fail || act == HandOver ==> d.kept == c.kept)
      && (o.verdict.Good? && o.conf.req.verb == "POST" && act == Answer ==> d.kept == "")
      && (o.verdict.Good? && act == ReadOn ==> d.kept == if |text| >= BUFFER_SIZE then "" else text)
  {
    var text := c.kept + chunk;
    StaleVersionForgotten(c.major, c.minor, text);
    LengthCases(ParseFrom(Cleared(0, 0), text).conf.req.headers, c.expected);
    hide ParseFrom, ContentLength, Unreadable, NoneGiven, FirstAt, Unsigned;
  }

  /** A new connection answers a request without a body, and keeps nothing of it. */
  lemma AnswerExample(expected: nat, major: int, minor: int, boundary: bool)
    ensures var (act, o, d) := Read(Conn("", expected, major, minor), "GET / HTTP/1.1\r\n\r\n", boundary);
      act == Answer && o.verdict.Good? && d == Conn("", expected, 1, 1)
  {
    hide ParseFrom, Read;
    PrintableUriAccepted("GET", "/");
    assert "GET" + " " + "/" + " HTTP/1.1\r\n\r\n" == "GET / HTTP/1.1\r\n\r\n";
    AnswersBodiless(Conn("", expected, major, minor), "GET / HTTP/1.1\r\n\r\n", boundary);
  }

  lemma AnswersBodiless(c: Conn, text: string, boundary: bool)
    requires c.kept == ""
    requires var o := ParseFrom(Cleared(0, 0), text);
      o.verdict.Good? && o.conf.req.verb != "POST" && o.conf.req.headers == []
    ensures var (o, (act, parsed, d)) := (ParseFrom(Cleared(0, 0), text), Read(c, text, boundary));
      act == Answer && parsed == o && d == Conn("", c.expected, o.conf.req.major, o.conf.req.minor)
  {
    hide ParseFrom, Read;
    assert "" + text == text;
    ReadActs(c, text, boundary);
    ReadRemembers(c, text, boundary);
    StaleVersionForgotten(c.major, c.minor, text);
    ReadParses(c, text, boundary);
  }

  lemma ReadParses(c: Conn, chunk: string, boundary: bool)
    ensures var o, (act, parsed, d) := ParseFrom(Cleared(c.major, c.minor), c.kept + chunk), Read(c, chunk, boundary);
      parsed == o && d.major == o.conf.req.major && d.minor == o.conf.req.minor
  {
    hide ParseFrom, Decide, Keep;
  }
}
