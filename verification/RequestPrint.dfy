/** The printed form of a request, and the round trips between printing and parsing. */
module RequestPrint {
  import opened Basics
  import opened RequestSpec
  import opened RequestGrammar

  predicate LegalHeader(h: Header) { h.name != "" && AllTokens(h.name) && NoCtl(h.value) }

  predicate LegalHeaders(hs: seq<Header>) { forall i :: 0 <= i < |hs| ==> LegalHeader(hs[i]) }

  predicate Legal(r: Request) { r.verb != "" && AllTokens(r.verb) && IsUri(r.uri) && LegalHeaders(r.headers) }

  predicate FitsInt(n: int) { -INT_MAX - 1 <= n <= INT_MAX }

  function Digit(d: int): (c: char)
    requires 0 <= d < 10
    ensures IsDigit(c) && DigitValue(c) == d
  {
    ('0' as int + d) as char
  }

  function Decimal(n: nat): (s: string)
    ensures |s| >= 1
  {
    if n < 10 then [Digit(n)] else Decimal(n / 10) + [Digit(n % 10)]
  }

  function PrintInt(n: int): string { if n < 0 then "-" + Decimal(-n) else Decimal(n) }

  function PrintHeader(h: Header): string { h.name + ": " + h.value + "\r\n" }

  function PrintHeaders(hs: seq<Header>): string {
    if hs == [] then "" else PrintHeaders(Front(hs)) + PrintHeader(Last(hs))
  }

  /** Section 5.1 of RFC 2616: method SP URI SP version CRLF, the header lines, CRLF. */
  function Print(r: Request): string {
    r.verb + " " + r.uri + " HTTP/" + PrintInt(r.major) + "." + PrintInt(r.minor) + "\r\n"
    + PrintHeaders(r.headers) + "\r\n"
  }

  // ---------------------------------------------------------------------------------
  // Parsing what was printed.

  function Fields(hs: seq<Header>): (fs: seq<Field>)
    ensures |fs| == |hs|
  {
    if hs == [] then [] else Fields(Front(hs)) + [Field(Last(hs).name, Last(hs).value, [])]
  }

  lemma LayoutSnoc(fs: seq<Field>, f: Field)
    requires LegalFields(fs) && f.Legal()
    ensures LegalFields(fs + [f]) && FieldsText(fs + [f]) == FieldsText(fs) + f.Text()
    ensures FieldsMeaning(fs + [f]) == FieldsMeaning(fs) + [f.Meaning()]
  {
    hide Field.Text, Field.Meaning, Field.Legal;
    assert (fs + [f])[..|fs|] == fs;
  }

  lemma {:induction false} FieldsPrint(hs: seq<Header>)
    requires LegalHeaders(hs)
    ensures LegalFields(Fields(hs)) && FieldsText(Fields(hs)) == PrintHeaders(hs) && FieldsMeaning(Fields(hs)) == hs
    decreases |hs|
  {
    if hs == [] {
      NoFields();
    } else {
      var h := Last(hs);
      assert LegalHeader(h) && LegalHeaders(Front(hs)) && Front(hs) + [h] == hs;
      hide *;
      FieldsPrint(Front(hs));
      FieldPrint(h);
      LayoutSnoc(Fields(Front(hs)), Field(h.name, h.value, []));
    }
  }

  lemma FieldPrint(h: Header)
    requires LegalHeader(h)
    ensures var f := Field(h.name, h.value, []); f.Legal() && f.Text() == PrintHeader(h) && f.Meaning() == h
  {
    assert h.value + "" == h.value && h.name + ": " + h.value + "\r\n" + "" == PrintHeader(h);
  }

  lemma {:induction false} DecimalValue(n: nat)
    ensures IsNumber(Decimal(n)) && Value(Decimal(n)) == n
  {
    var s := Decimal(n);
    if n < 10 {
      assert s[..0] == "" && Value(s) == DigitValue(s[0]);
    } else {
      DecimalValue(n / 10);
      assert Front(s) == Decimal(n / 10);
      assert n == n / 10 * 10 + n % 10;
    }
  }

  lemma DecimalNumber(n: nat)
    ensures IsNumber(Decimal(n)) && Number(Decimal(n)) == Int32(n)
  {
    DecimalValue(n);
    NumberIsWrapped(Decimal(n));
    hide Decimal, Number, Value;
  }

  /** Parsing a printed request from a cleared one gives the request back, good at its last byte. */
  lemma PrintThenParse(r: Request, major: int, minor: int)
    requires Legal(r) && 0 <= r.major <= INT_MAX && 0 <= r.minor <= INT_MAX
    ensures ParseFrom(Cleared(major, minor), Print(r)) == Outcome(Good, Conf(ExpectingNewline3, r), |Print(r)|)
  {
    hide Run, Decimal, Number, FieldsText, FieldsMeaning, PrintHeaders, Fields, IsNumber, LegalHeaders, LegalFields, AllTokens, IsUri;
    var l := Layout(r.verb, r.uri, Decimal(r.major), Decimal(r.minor), Fields(r.headers));
    FieldsPrint(r.headers);
    DecimalNumber(r.major);
    DecimalNumber(r.minor);
    assert l.Text() == Print(r);
    LayoutParses(l, major, minor, "");
    assert l.Text() + "" == l.Text();
  }

  // ---------------------------------------------------------------------------------
  // Whatever is accepted is legal, and survives being printed and parsed again.

  lemma {:induction false} FoldsMoreNoCtl(fs: seq<Fold>)
    requires LegalFolds(fs)
    ensures NoCtl(FoldsMore(fs))
    decreases |fs|
  {
    if fs != [] {
      FoldsMoreNoCtl(Front(fs));
      assert Last(fs).Legal();
    }
  }

  lemma {:induction false} FieldsMeaningLegal(fs: seq<Field>)
    requires LegalFields(fs)
    ensures LegalHeaders(FieldsMeaning(fs))
    decreases |fs|
  {
    if fs != [] {
      FieldsMeaningLegal(Front(fs));
      var f := Last(fs);
      assert f.Legal();
      FoldsMoreNoCtl(f.folds);
    }
  }

  /** Whatever is accepted, folded header lines included, is a legal request. */
  lemma AcceptedIsLegal(major: int, minor: int, input: string)
    requires ParseFrom(Cleared(major, minor), input).verdict.Good?
    ensures var r := ParseFrom(Cleared(major, minor), input).conf.req;
      Legal(r) && FitsInt(r.major) && FitsInt(r.minor)
  {
    AcceptsExactlyLayouts(major, minor, input);
    var l: Layout :| Begins(l, input);
    FieldsMeaningLegal(l.fields);
    hide Run, Number, LegalHeaders, FieldsMeaning, FieldsText;
  }

  /** A string that leads to a place where the next character is refused makes a bad request. */
  lemma LeadsToBad(c: Conf, a: string, d: Conf, b: string)
    requires b != "" && Leads(c, a, d) && Step(d, b[0]).0.Bad?
    ensures Run(c, a + b).verdict.Bad?
  {
    hide Step;
    RunAppend(c, a, b);
  }

  lemma FrontPrints(r: Request)
    ensures Print(r) == FrontText(r.verb, r.uri) + PrintInt(r.major) + "." + PrintInt(r.minor) + "\r\n"
                     + PrintHeaders(r.headers) + "\r\n"
  {
  }

  /** A negative version number, which only an overflow can leave, is printed with a sign that
      the parser refuses. */
  lemma NegativeVersionRefused(r: Request, major: int, minor: int)
    requires Legal(r) && FitsInt(r.major) && FitsInt(r.minor) && (r.major < 0 || r.minor < 0)
    ensures ParseFrom(Cleared(major, minor), Print(r)).verdict.Bad?
  {
    hide Run, Leads, Decimal, FrontText, Number, IsNumber, LegalHeaders;
    var c0, front := Conf(MethodStart, Cleared(major, minor)), Request(r.verb, r.uri, 0, 0, []);
    var c1 := Conf(VersionMajorStart, front);
    LeadsFront(r, c0.req);
    assert Print(r) == FrontText(r.verb, r.uri) + PrintInt(r.major) + "." + PrintInt(r.minor) + "\r\n" + PrintHeaders(r.headers) + "\r\n" by { FrontPrints(r); }
    var rest := "\r\n" + PrintHeaders(r.headers) + "\r\n";
    if r.major < 0 {
      var b := PrintInt(r.major) + "." + PrintInt(r.minor) + rest;
      assert b[0] == '-';
      LeadsToBad(c0, FrontText(r.verb, r.uri), c1, b);
      assert Print(r) == FrontText(r.verb, r.uri) + b;
    } else {
      var c2 := Conf(VersionMajor, front.(major := r.major));
      DecimalNumber(r.major);
      LeadsMajor(front, Decimal(r.major));
      LeadsAppend(c0, FrontText(r.verb, r.uri), c1, Decimal(r.major), c2);
      LeadsOne(c2, '.', c2.To(VersionMinorStart));
      LeadsAppend(c0, FrontText(r.verb, r.uri) + Decimal(r.major), c2, ".", c2.To(VersionMinorStart));
      var b := PrintInt(r.minor) + rest;
      assert b[0] == '-';
      LeadsToBad(c0, FrontText(r.verb, r.uri) + Decimal(r.major) + ".", c2.To(VersionMinorStart), b);
      assert Print(r) == FrontText(r.verb, r.uri) + Decimal(r.major) + "." + b;
    }
  }

  lemma ReparsesIffNonNegative(r: Request, major: int, minor: int)
    requires Legal(r) && FitsInt(r.major) && FitsInt(r.minor)
    ensures ParseFrom(Cleared(major, minor), Print(r)) == Outcome(Good, Conf(ExpectingNewline3, r), |Print(r)|)
      <==> r.major >= 0 && r.minor >= 0
  {
    hide Run, Legal, Print;
    if r.major >= 0 && r.minor >= 0 {
      PrintThenParse(r, major, minor);
    } else {
      NegativeVersionRefused(r, major, minor);
    }
  }

  /** The digits of a version number write one whose low 32 bits are no negative int. */
  predicate WrapsNonNegative(digits: string) { Value(digits) % 0x1_0000_0000 <= INT_MAX }

  lemma NonNegativeIff(v: int)
    ensures Int32(v) >= 0 <==> v % 0x1_0000_0000 <= INT_MAX
  {
    var k, r := v / 0x1_0000_0000, v % 0x1_0000_0000;
    WrapsEqual(v, r, k);
  }

  /** For every accepted input, which is one that a legal layout begins: printing the request it was
      parsed to and parsing that gives the same request, exactly when neither of the version numbers
      written in it wraps around to a negative one. */
  lemma AcceptedReparses(input: string, l: Layout, major: int, minor: int, major': int, minor': int)
    requires Begins(l, input)
    ensures var o := ParseFrom(Cleared(major, minor), input);
      && o.verdict.Good?
      && (ParseFrom(Cleared(major', minor'), Print(o.conf.req))
            == Outcome(Good, Conf(ExpectingNewline3, o.conf.req), |Print(o.conf.req)|)
          <==> WrapsNonNegative(l.major) && WrapsNonNegative(l.minor))
  {
    AcceptsExactlyLayouts(major, minor, input);
    AcceptedIsLegal(major, minor, input);
    hide Run, Legal, Print, Value, Number, FieldsMeaning, Begins, Int32;
    var r := ParseFrom(Cleared(major, minor), input).conf.req;
    assert r == l.Meaning();
    NumberIsWrapped(l.major);
    NumberIsWrapped(l.minor);
    NonNegativeIff(Value(l.major));
    NonNegativeIff(Value(l.minor));
    ReparsesIffNonNegative(r, major', minor');
  }

  /** The request "G / HTTP/n.0" is accepted for every n, and n is read as a C int. */
  lemma AnyVersionAccepted(n: nat)
    ensures var o := ParseFrom(Cleared(0, 0), "G / HTTP/" + Decimal(n) + ".0\r\n\r\n");
      o.verdict.Good? && o.conf.req == Request("G", "/", Int32(n), 0, [])
  {
    hide Run, Decimal, Number, IsNumber, IsToken, IsCtl, FieldsText, FieldsMeaning, Int32;
    var v := Decimal(n);
    DecimalNumber(n);
    ZeroNumber();
    assert IsToken('G') && !IsCtl('/') by { PlainChars(); }
    var l := Layout("G", "/", v, "0", []);
    assert l.Legal();
    LayoutParses(l, 0, 0, "");
    NoFields();
    assert l.Text() + "" == "G / HTTP/" + v + ".0\r\n\r\n";
  }

  lemma PlainChars()
    ensures IsToken('G') && !IsCtl('/')
  {
  }

  lemma DigitNumber(c: char)
    requires IsDigit(c)
    ensures IsNumber([c]) && Number([c]) == NextVersion(0, c)
  {
    hide NextVersion, IsDigit;
    assert Front([c]) == "" && Last([c]) == c;
    assert Number("") == 0;
  }

  lemma ZeroNumber()
    ensures IsNumber("0") && Number("0") == 0
  {
    hide Number, IsNumber, NextVersion;
    DigitNumber('0');
    ZeroStep();
  }

  lemma ZeroStep()
    ensures NextVersion(0, '0') == 0
  {
    hide Int32;
  }

  lemma VersionRead(n: nat, m: int)
    requires Int32(n) == m
    ensures var o := ParseFrom(Cleared(0, 0), "G / HTTP/" + Decimal(n) + ".0\r\n\r\n");
      o.verdict.Good? && o.conf.req.major == m
  {
    hide Decimal, ParseFrom, Int32;
    AnyVersionAccepted(n);
  }

  /** Two accepted requests whose version numbers overflow: 2147483648 into a negative number, and
      4294967297 into 1. */
  lemma OverflowExample()
    ensures var o := ParseFrom(Cleared(0, 0), "G / HTTP/" + Decimal(2147483648) + ".0\r\n\r\n");
      o.verdict.Good? && o.conf.req.major == -0x8000_0000
    ensures var o := ParseFrom(Cleared(0, 0), "G / HTTP/" + Decimal(4294967297) + ".0\r\n\r\n");
      o.verdict.Good? && o.conf.req.major == 1
  {
    hide Decimal, ParseFrom;
    VersionRead(2147483648, -0x8000_0000);
    VersionRead(4294967297, 1);
  }
}
