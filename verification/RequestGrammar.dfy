/** What the parser accepts: a grammar of request headers, with folded header lines, and the
    proof that the state machine accepts exactly it, and what it makes of it. */
module RequestGrammar {
  import opened Basics
  import opened RequestSpec

  predicate AllTokens(s: string) { forall i :: 0 <= i < |s| ==> IsToken(s[i]) }

  /** The code stops a URI at a space and refuses controls. */
  predicate IsUri(s: string) { forall i :: 0 <= i < |s| ==> s[i] != ' ' && !IsCtl(s[i]) }

  predicate NoCtl(s: string) { forall i :: 0 <= i < |s| ==> !IsCtl(s[i]) }

  predicate IsBlank(s: string) { forall i :: 0 <= i < |s| ==> s[i] == ' ' || s[i] == '\t' }

  predicate IsNumber(s: string) { s != "" && forall i :: 0 <= i < |s| ==> IsDigit(s[i]) }

  /** The value the parser gives a version number: it wraps around as a C int. */
  function Number(s: string): int {
    if s == "" then 0 else NextVersion(Number(Front(s)), Last(s))
  }

  /** The number that digits write in decimal, without a bound. */
  function Value(s: string): int {
    if s == "" then 0 else Value(Front(s)) * 10 + DigitValue(Last(s))
  }

  lemma WrapsEqual(x: int, y: int, k: int)
    requires x == y + k * 0x1_0000_0000
    ensures Int32(x) == Int32(y)
  {
    var m := 0x1_0000_0000;
    var q := (y + 0x8000_0000) / m;
    assert x + 0x8000_0000 == (q + k) * m + (y + 0x8000_0000) % m;
  }

  /** Wrapping around at every digit is wrapping around once. */
  lemma WrapsOnce(v: int, d: int)
    ensures Int32(Int32(v) * 10 + d) == Int32(v * 10 + d)
  {
    var k := (v + 0x8000_0000) / 0x1_0000_0000;
    assert Int32(v) == v - k * 0x1_0000_0000;
    WrapsEqual(v * 10 + d, Int32(v) * 10 + d, 10 * k);
  }

  /** A version number is the one written, as far as a C int can hold it. */
  lemma {:induction false} NumberIsWrapped(s: string)
    ensures Number(s) == Int32(Value(s))
    decreases |s|
  {
    if s != "" {
      var k := |s| - 1;
      NumberIsWrapped(s[..k]);
      WrapsOnce(Value(s[..k]), DigitValue(s[k]));
      hide Int32;
    }
  }

  lemma {:induction false} ValueIsNat(s: string)
    requires forall i :: 0 <= i < |s| ==> IsDigit(s[i])
    ensures Value(s) >= 0
    decreases |s|
  {
    if s != "" {
      ValueIsNat(Front(s));
      assert IsDigit(Last(s));
    }
  }

  /** The parser reads the number written exactly when that fits in an int. */
  lemma NumberIsValueIffFits(s: string)
    requires IsNumber(s)
    ensures Number(s) == Value(s) <==> Value(s) <= INT_MAX
  {
    NumberIsWrapped(s);
    ValueIsNat(s);
    hide Value, Number;
  }

  /** A continuation line: blanks, and then more of the value, if anything. */
  datatype Fold = Fold(blank: string, more: string) {
    predicate Legal() { blank != "" && IsBlank(blank) && NoCtl(more) && (more != "" ==> !IsBlank([more[0]])) }

    function Text(): string { blank + more + "\r\n" }
  }

  function FoldsText(fs: seq<Fold>): string {
    if fs == [] then "" else FoldsText(Front(fs)) + Last(fs).Text()
  }

  function FoldsMore(fs: seq<Fold>): string {
    if fs == [] then "" else FoldsMore(Front(fs)) + Last(fs).more
  }

  predicate LegalFolds(fs: seq<Fold>) { forall i :: 0 <= i < |fs| ==> fs[i].Legal() }

  /** A header as it is laid out: exactly one space after the colon is not part of the value. */
  datatype Field = Field(name: string, value: string, folds: seq<Fold>) {
    predicate Legal() { name != "" && AllTokens(name) && NoCtl(value) && LegalFolds(folds) }

    function Text(): string { name + ": " + value + "\r\n" + FoldsText(folds) }

    /** Folding leaves no trace in the value, not even a space. */
    function Meaning(): Header { Header(name, value + FoldsMore(folds)) }
  }

  function FieldsText(fs: seq<Field>): string {
    if fs == [] then "" else FieldsText(Front(fs)) + Last(fs).Text()
  }

  function FieldsMeaning(fs: seq<Field>): seq<Header> {
    if fs == [] then [] else FieldsMeaning(Front(fs)) + [Last(fs).Meaning()]
  }

  lemma NoFields()
    ensures FieldsText([]) == "" && FieldsMeaning([]) == []
  {
  }

  predicate LegalFields(fs: seq<Field>) { forall i :: 0 <= i < |fs| ==> fs[i].Legal() }

  function FrontText(verb: string, uri: string): string { verb + " " + uri + " HTTP/" }

  datatype Layout = Layout(verb: string, uri: string, major: string, minor: string, fields: seq<Field>) {
    predicate Legal() {
      verb != "" && AllTokens(verb) && IsUri(uri) && IsNumber(major) && IsNumber(minor) && LegalFields(fields)
    }

    /** Section 5.1 of RFC 2616: method SP URI SP version CRLF, the header lines, CRLF. */
    function Text(): string {
      FrontText(verb, uri) + major + "." + minor + "\r\n" + FieldsText(fields) + "\r\n"
    }

    function Meaning(): Request { Request(verb, uri, Number(major), Number(minor), FieldsMeaning(fields)) }
  }

  // ---------------------------------------------------------------------------------
  // A layout is parsed to its meaning.

  /** The input s leads from c to d without a verdict. */
  predicate Leads(c: Conf, s: string, d: Conf) {
    c.HasHeader() && Run(c, s) == Outcome(Indeterminate, d, |s|)
  }

  lemma LeadsAppend(c: Conf, a: string, d: Conf, b: string, e: Conf)
    requires Leads(c, a, d) && Leads(d, b, e)
    ensures Leads(c, a + b, e)
  {
    hide Run;
    RunAppend(c, a, b);
  }

  lemma LeadsOne(c: Conf, x: char, d: Conf)
    requires c.HasHeader() && Step(c, x) == (Indeterminate, d)
    ensures Leads(c, [x], d)
  {
    hide Step;
    assert [x][1..] == "";
    assert Run(d, "") == Outcome(Indeterminate, d, 0);
  }

  lemma LeadsNowhere(c: Conf)
    requires c.HasHeader()
    ensures Leads(c, "", c)
  {
  }

  /** A string whose last character is taken after the others. */
  lemma LeadsSnoc(c: Conf, s: string, d: Conf, e: Conf)
    requires s != "" && Leads(c, Front(s), d) && Step(d, Last(s)) == (Indeterminate, e)
    ensures Leads(c, s, e)
  {
    hide Step;
    LeadsOne(d, Last(s), e);
    LeadsAppend(c, Front(s), d, [Last(s)], e);
    assert Front(s) + [Last(s)] == s;
  }

  lemma {:induction false} LeadsMethod(r: Request, t: string)
    requires AllTokens(t)
    ensures Leads(Conf(Method, r), t, Conf(Method, r.(verb := r.verb + t)))
    decreases |t|
  {
    hide Leads;
    var c := Conf(Method, r);
    if t == "" {
      LeadsNowhere(c);
      assert r.verb + t == r.verb;
    } else {
      var k := |t| - 1;
      LeadsMethod(r, t[..k]);
      assert IsToken(t[k]);
      assert r.verb + t == (r.verb + t[..k]) + [t[k]];
      LeadsSnoc(c, t, Conf(Method, r.(verb := r.verb + t[..k])), Conf(Method, r.(verb := r.verb + t)));
    }
  }

  lemma {:induction false} LeadsUri(r: Request, t: string)
    requires IsUri(t)
    ensures Leads(Conf(Uri, r), t, Conf(Uri, r.(uri := r.uri + t)))
    decreases |t|
  {
    hide Leads;
    var c := Conf(Uri, r);
    if t == "" {
      LeadsNowhere(c);
      assert r.uri + t == r.uri;
    } else {
      var k := |t| - 1;
      LeadsUri(r, t[..k]);
      assert t[k] != ' ' && !IsCtl(t[k]);
      assert r.uri + t == (r.uri + t[..k]) + [t[k]];
      LeadsSnoc(c, t, Conf(Uri, r.(uri := r.uri + t[..k])), Conf(Uri, r.(uri := r.uri + t)));
    }
  }

  /** The request with one more header, as far as it has been read. */
  function With(r: Request, name: string, value: string): Request {
    r.(headers := r.headers + [Header(name, value)])
  }

  lemma WithName(r: Request, name: string, c: char)
    ensures AddToName(With(r, name, ""), c) == With(r, name + [c], "")
  {
  }

  lemma WithValue(r: Request, name: string, value: string, c: char)
    ensures AddToValue(With(r, name, value), c) == With(r, name, value + [c])
  {
  }

  lemma {:induction false} LeadsName(r: Request, first: string, t: string)
    requires AllTokens(t)
    ensures Leads(Conf(HeaderName, With(r, first, "")), t, Conf(HeaderName, With(r, first + t, "")))
    decreases |t|
  {
    hide Leads, AddToName, With;
    var c := Conf(HeaderName, With(r, first, ""));
    if t == "" {
      HasWith(r, first, "");
      LeadsNowhere(c);
      assert first + t == first;
    } else {
      var k := |t| - 1;
      LeadsName(r, first, t[..k]);
      assert IsToken(t[k]);
      assert first + t == (first + t[..k]) + [t[k]];
      HasWith(r, first + t[..k], "");
      WithName(r, first + t[..k], t[k]);
      LeadsSnoc(c, t, Conf(HeaderName, With(r, first + t[..k], "")), Conf(HeaderName, With(r, first + t, "")));
    }
  }

  lemma HasWith(r: Request, name: string, value: string)
    ensures With(r, name, value).headers != []
  {
  }

  lemma {:induction false} LeadsValue(r: Request, name: string, first: string, t: string)
    requires NoCtl(t)
    ensures Leads(Conf(HeaderValue, With(r, name, first)), t, Conf(HeaderValue, With(r, name, first + t)))
    decreases |t|
  {
    hide Leads, AddToValue, With;
    var c := Conf(HeaderValue, With(r, name, first));
    if t == "" {
      HasWith(r, name, first);
      LeadsNowhere(c);
      assert first + t == first;
    } else {
      var k := |t| - 1;
      LeadsValue(r, name, first, t[..k]);
      assert !IsCtl(t[k]);
      assert first + t == (first + t[..k]) + [t[k]];
      HasWith(r, name, first + t[..k]);
      WithValue(r, name, first + t[..k], t[k]);
      LeadsSnoc(c, t, Conf(HeaderValue, With(r, name, first + t[..k])), Conf(HeaderValue, With(r, name, first + t)));
    }
  }

  lemma {:induction false} LeadsMajor(r: Request, t: string)
    requires IsNumber(t)
    ensures Leads(Conf(VersionMajorStart, r.(major := 0)), t, Conf(VersionMajor, r.(major := Number(t))))
    decreases |t|
  {
    hide Leads, NextVersion;
    var c, d := Conf(VersionMajorStart, r.(major := 0)), Conf(VersionMajor, r.(major := Number(t)));
    var k := |t| - 1;
    assert IsDigit(t[k]);
    if k == 0 {
      assert t[..0] == "" && t == [t[0]] && Number(t) == NextVersion(0, t[0]);
      LeadsOne(c, t[0], d);
    } else {
      LeadsMajor(r, t[..k]);
      LeadsSnoc(c, t, Conf(VersionMajor, r.(major := Number(t[..k]))), d);
    }
  }

  lemma {:induction false} LeadsMinor(r: Request, t: string)
    requires IsNumber(t)
    ensures Leads(Conf(VersionMinorStart, r.(minor := 0)), t, Conf(VersionMinor, r.(minor := Number(t))))
    decreases |t|
  {
    hide Leads, NextVersion;
    var c, d := Conf(VersionMinorStart, r.(minor := 0)), Conf(VersionMinor, r.(minor := Number(t)));
    var k := |t| - 1;
    assert IsDigit(t[k]);
    if k == 0 {
      assert t[..0] == "" && t == [t[0]] && Number(t) == NextVersion(0, t[0]);
      LeadsOne(c, t[0], d);
    } else {
      LeadsMinor(r, t[..k]);
      LeadsSnoc(c, t, Conf(VersionMinor, r.(minor := Number(t[..k]))), d);
    }
  }

  lemma LeadsVersionName(r: Request)
    ensures Leads(Conf(HttpVersionH, r), "HTTP/", Conf(VersionMajorStart, r.(major := 0, minor := 0)))
  {
    var c := Conf(HttpVersionH, r);
    hide Run, Leads;
    LeadsOne(c, 'H', c.To(HttpVersionT1));
    LeadsOne(c.To(HttpVersionT1), 'T', c.To(HttpVersionT2));
    LeadsOne(c.To(HttpVersionT2), 'T', c.To(HttpVersionP));
    LeadsOne(c.To(HttpVersionP), 'P', c.To(HttpVersionSlash));
    var d := Conf(VersionMajorStart, r.(major := 0, minor := 0));
    LeadsOne(c.To(HttpVersionSlash), '/', d);
    LeadsAppend(c, "H", c.To(HttpVersionT1), "T", c.To(HttpVersionT2));
    LeadsAppend(c, "H" + "T", c.To(HttpVersionT2), "T", c.To(HttpVersionP));
    LeadsAppend(c, "H" + "T" + "T", c.To(HttpVersionP), "P", c.To(HttpVersionSlash));
    LeadsAppend(c, "H" + "T" + "T" + "P", c.To(HttpVersionSlash), "/", d);
    assert "H" + "T" + "T" + "P" + "/" == "HTTP/";
  }

  lemma LeadsNewline(c: Conf, between: State, d: Conf)
    requires c.HasHeader() && d == c.To(d.state)
    requires Step(c, '\r') == (Indeterminate, c.To(between))
    requires Step(c.To(between), '\n') == (Indeterminate, d)
    ensures Leads(c, "\r\n", d)
  {
    hide Run, Step, Leads;
    LeadsOne(c, '\r', c.To(between));
    LeadsOne(c.To(between), '\n', d);
    LeadsAppend(c, "\r", c.To(between), "\n", d);
    assert "\r" + "\n" == "\r\n";
  }

  lemma LeadsMethodStart(r: Request, t: string)
    requires t != "" && AllTokens(t) && r.verb == ""
    ensures Leads(Conf(MethodStart, r), t, Conf(Method, r.(verb := t)))
  {
    hide Run, Leads;
    var c, d := Conf(MethodStart, r), Conf(Method, r.(verb := [t[0]]));
    assert IsToken(t[0]);
    assert "" + [t[0]] == [t[0]];
    LeadsOne(c, t[0], d);
    LeadsMethod(d.req, t[1..]);
    assert [t[0]] + t[1..] == t;
    LeadsAppend(c, [t[0]], d, t[1..], Conf(Method, r.(verb := t)));
  }

  lemma LeadsFront(r: Request, start: Request)
    requires r.verb != "" && AllTokens(r.verb) && IsUri(r.uri) && start == Cleared(start.major, start.minor)
    ensures Leads(Conf(MethodStart, start), FrontText(r.verb, r.uri),
                  Conf(VersionMajorStart, Request(r.verb, r.uri, 0, 0, [])))
  {
    hide Run, Leads, AllTokens, IsUri;
    var c0 := Conf(MethodStart, start);
    var c1 := Conf(Method, start.(verb := r.verb));
    var c2 := c1.To(Uri);
    var c3 := Conf(Uri, c2.req.(uri := r.uri));
    var c4 := c3.To(HttpVersionH);
    var c5 := Conf(VersionMajorStart, Request(r.verb, r.uri, 0, 0, []));
    LeadsMethodStart(start, r.verb);
    LeadsOne(c1, ' ', c2);
    LeadsAppend(c0, r.verb, c1, " ", c2);
    LeadsUri(c2.req, r.uri);
    assert "" + r.uri == r.uri;
    LeadsAppend(c0, r.verb + " ", c2, r.uri, c3);
    LeadsOne(c3, ' ', c4);
    LeadsAppend(c0, r.verb + " " + r.uri, c3, " ", c4);
    LeadsVersionName(c4.req);
    LeadsAppend(c0, r.verb + " " + r.uri + " ", c4, "HTTP/", c5);
    assert " " + "HTTP/" == " HTTP/";
    assert r.verb + " " + r.uri + " " + "HTTP/" == FrontText(r.verb, r.uri);
  }

  lemma LeadsVersions(front: Request, major: string, minor: string)
    requires IsNumber(major) && IsNumber(minor) && front.major == 0 == front.minor
    ensures Leads(Conf(VersionMajorStart, front), major + "." + minor + "\r\n",
                  Conf(HeaderLineStart, front.(major := Number(major), minor := Number(minor))))
  {
    hide Run, Leads, Number, IsNumber;
    var c1 := Conf(VersionMajorStart, front);
    var c2 := Conf(VersionMajor, front.(major := Number(major)));
    var c3 := c2.To(VersionMinorStart);
    var c4 := Conf(VersionMinor, front.(major := Number(major), minor := Number(minor)));
    LeadsMajor(front, major);
    LeadsOne(c2, '.', c3);
    LeadsAppend(c1, major, c2, ".", c3);
    LeadsMinor(c3.req, minor);
    LeadsAppend(c1, major + ".", c3, minor, c4);
    LeadsNewline(c4, ExpectingNewline1, c4.To(HeaderLineStart));
    LeadsAppend(c1, major + "." + minor, c4, "\r\n", c4.To(HeaderLineStart));
  }

  /** The name and the first line of a header. */
  lemma LeadsFirstLine(r: Request, name: string, value: string)
    requires name != "" && AllTokens(name) && NoCtl(value)
    ensures Leads(Conf(HeaderLineStart, r), name + ": " + value + "\r\n", Conf(HeaderLineStart, With(r, name, value)))
  {
    hide Run, Leads, NoCtl;
    var first := [name[0]];
    var c0, c1, c2 := Conf(HeaderLineStart, r), Conf(HeaderName, With(r, first, "")), Conf(HeaderName, With(r, name, ""));
    var c3, c4 := Conf(HeaderValue, With(r, name, "")), Conf(HeaderValue, With(r, name, value));
    assert IsToken(name[0]);
    LeadsOne(c0, name[0], c1);
    LeadsName(r, first, name[1..]);
    assert first + name[1..] == name;
    LeadsAppend(c0, first, c1, name[1..], c2);
    hide Step;
    LeadsColon(c2, c3);
    LeadsAppend(c0, name, c2, ": ", c3);
    LeadsValue(r, name, "", value);
    assert "" + value == value;
    LeadsAppend(c0, name + ": ", c3, value, c4);
    LeadsLineEnd(c4);
    LeadsAppend(c0, name + ": " + value, c4, "\r\n", c4.To(HeaderLineStart));
  }

  lemma LeadsColon(c: Conf, d: Conf)
    requires c.state.HeaderName? && c.HasHeader() && d == c.To(HeaderValue)
    ensures Leads(c, ": ", d)
  {
    hide Leads, Run;
    LeadsOne(c, ':', c.To(SpaceBeforeHeaderValue));
    LeadsOne(c.To(SpaceBeforeHeaderValue), ' ', d);
    LeadsAppend(c, ":", c.To(SpaceBeforeHeaderValue), " ", d);
    assert ":" + " " == ": ";
  }

  lemma LeadsLineEnd(c: Conf)
    requires c.state in {HeaderLws, HeaderValue} && c.HasHeader()
    ensures Leads(c, "\r\n", c.To(HeaderLineStart))
  {
    LeadsNewline(c, ExpectingNewline2, c.To(HeaderLineStart));
  }

  lemma {:induction false} LeadsBlank(c: Conf, t: string)
    requires c.state.HeaderLws? && c.HasHeader() && IsBlank(t)
    ensures Leads(c, t, c)
    decreases |t|
  {
    hide Leads, Run;
    if t == "" {
      LeadsNowhere(c);
    } else {
      LeadsBlank(c, Front(t));
      LeadsSnoc(c, t, c, c);
    }
  }

  /** A continuation line extends the last header's value. */
  lemma LeadsFold(r: Request, name: string, value: string, f: Fold)
    requires f.Legal()
    ensures Leads(Conf(HeaderLineStart, With(r, name, value)), f.Text(), Conf(HeaderLineStart, With(r, name, value + f.more)))
  {
    hide Run, Leads, With, NoCtl;
    HasWith(r, name, value);
    var c0 := Conf(HeaderLineStart, With(r, name, value));
    var c1 := c0.To(HeaderLws);
    var b := f.blank;
    assert b[0] == ' ' || b[0] == '\t';
    LeadsOne(c0, b[0], c1);
    LeadsBlank(c1, b[1..]);
    assert [b[0]] + b[1..] == b;
    LeadsAppend(c0, [b[0]], c1, b[1..], c1);
    hide Step;
    var c2 := Conf(if f.more == "" then HeaderLws else HeaderValue, With(r, name, value + f.more));
    HasWith(r, name, value + f.more);
    LeadsMore(r, name, value, f.more);
    LeadsAppend(c0, b, c1, f.more, c2);
    LeadsLineEnd(c2);
    LeadsAppend(c0, b + f.more, c2, "\r\n", c2.To(HeaderLineStart));
  }

  lemma LeadsMore(r: Request, name: string, value: string, t: string)
    requires NoCtl(t) && (t != "" ==> !IsBlank([t[0]]))
    ensures Leads(Conf(HeaderLws, With(r, name, value)), t,
                  Conf(if t == "" then HeaderLws else HeaderValue, With(r, name, value + t)))
  {
    hide Run, Leads, With, AddToValue;
    HasWith(r, name, value);
    var c := Conf(HeaderLws, With(r, name, value));
    if t == "" {
      LeadsNowhere(c);
      assert value + t == value;
    } else {
      var d := Conf(HeaderValue, With(r, name, value + [t[0]]));
      assert !IsCtl(t[0]);
      assert t[0] != ' ' && t[0] != '\t' by { NotBlank(t[0]); }
      WithValue(r, name, value, t[0]);
      LeadsOne(c, t[0], d);
      LeadsValue(r, name, value + [t[0]], t[1..]);
      assert value + [t[0]] + t[1..] == value + t;
      assert [t[0]] + t[1..] == t;
      LeadsAppend(c, [t[0]], d, t[1..], Conf(HeaderValue, With(r, name, value + t)));
    }
  }

  lemma NotBlank(c: char)
    ensures IsBlank([c]) <==> c == ' ' || c == '\t'
  {
    assert [c][0] == c;
  }

  lemma {:induction false} LeadsFolds(r: Request, name: string, value: string, fs: seq<Fold>)
    requires LegalFolds(fs)
    ensures Leads(Conf(HeaderLineStart, With(r, name, value)), FoldsText(fs),
                  Conf(HeaderLineStart, With(r, name, value + FoldsMore(fs))))
    decreases |fs|
  {
    hide Run, Leads, With, Fold.Text, Fold.Legal;
    var c := Conf(HeaderLineStart, With(r, name, value));
    if fs == [] {
      LeadsNowhere(c);
      assert value + "" == value;
    } else {
      var k := |fs| - 1;
      LeadsFolds(r, name, value, fs[..k]);
      assert fs[k].Legal();
      var v := value + FoldsMore(fs[..k]);
      LeadsFold(r, name, v, fs[k]);
      assert value + FoldsMore(fs) == v + fs[k].more;
      LeadsAppend(c, FoldsText(fs[..k]), Conf(HeaderLineStart, With(r, name, v)), fs[k].Text(),
                  Conf(HeaderLineStart, With(r, name, value + FoldsMore(fs))));
    }
  }

  lemma LeadsField(r: Request, f: Field)
    requires f.Legal()
    ensures Leads(Conf(HeaderLineStart, r), f.Text(),
                  Conf(HeaderLineStart, r.(headers := r.headers + [f.Meaning()])))
  {
    hide Run, Leads, FoldsText, FoldsMore, LegalFolds, AllTokens, NoCtl;
    LeadsFirstLine(r, f.name, f.value);
    LeadsFolds(r, f.name, f.value, f.folds);
    LeadsAppend(Conf(HeaderLineStart, r), f.name + ": " + f.value + "\r\n", Conf(HeaderLineStart, With(r, f.name, f.value)),
                FoldsText(f.folds), Conf(HeaderLineStart, With(r, f.name, f.value + FoldsMore(f.folds))));
  }

  lemma {:induction false} LeadsFields(r: Request, fs: seq<Field>)
    requires LegalFields(fs) && r.headers == []
    ensures Leads(Conf(HeaderLineStart, r), FieldsText(fs), Conf(HeaderLineStart, r.(headers := FieldsMeaning(fs))))
    decreases |fs|
  {
    hide Run, Leads, Field.Text, Field.Legal, Field.Meaning;
    var c := Conf(HeaderLineStart, r);
    if fs == [] {
      LeadsNowhere(c);
    } else {
      var k := |fs| - 1;
      LeadsFields(r, fs[..k]);
      assert fs[k].Legal();
      var s := r.(headers := FieldsMeaning(fs[..k]));
      LeadsField(s, fs[k]);
      LeadsAppend(c, FieldsText(fs[..k]), Conf(HeaderLineStart, s), fs[k].Text(),
                  Conf(HeaderLineStart, r.(headers := FieldsMeaning(fs))));
    }
  }

  lemma EndsGood(r: Request)
    ensures Run(Conf(HeaderLineStart, r), "\r\n") == Outcome(Good, Conf(ExpectingNewline3, r), 2)
  {
    assert "\r\n"[1..] == "\n";
  }

  lemma LeadsHead(l: Layout, start: Request)
    requires l.Legal() && start == Cleared(start.major, start.minor)
    ensures Leads(Conf(MethodStart, start), FrontText(l.verb, l.uri) + (l.major + "." + l.minor + "\r\n"),
                  Conf(HeaderLineStart, l.Meaning().(headers := [])))
  {
    hide Run, Leads, LegalFields, FrontText, IsNumber, Number, FieldsMeaning;
    var front := Request(l.verb, l.uri, 0, 0, []);
    LeadsFront(front, start);
    LeadsVersions(front, l.major, l.minor);
    LeadsAppend(Conf(MethodStart, start), FrontText(l.verb, l.uri), Conf(VersionMajorStart, front),
                l.major + "." + l.minor + "\r\n", Conf(HeaderLineStart, l.Meaning().(headers := [])));
  }

  /** Every legal layout, whatever follows it, is a good request that ends where it ends and that
      the parser takes to mean what it means. */
  lemma LayoutParses(l: Layout, major: int, minor: int, rest: string)
    requires l.Legal()
    ensures ParseFrom(Cleared(major, minor), l.Text() + rest) == Outcome(Good, Conf(ExpectingNewline3, l.Meaning()), |l.Text()|)
  {
    hide Run, Step, FieldsText, FieldsMeaning, FrontText, Number, IsNumber;
    var start := Cleared(major, minor);
    var line := FrontText(l.verb, l.uri) + (l.major + "." + l.minor + "\r\n");
    var r := l.Meaning();
    var c0, c1, c2 := Conf(MethodStart, start), Conf(HeaderLineStart, r.(headers := [])), Conf(HeaderLineStart, r);
    LeadsHead(l, start);
    LeadsFields(c1.req, l.fields);
    LeadsAppend(c0, line, c1, FieldsText(l.fields), c2);
    EndsGood(r);
    RunAppend(c0, line + FieldsText(l.fields), "\r\n");
    assert l.Text() == line + FieldsText(l.fields) + "\r\n";
    RunAppend(c0, l.Text(), rest);
  }

  // ---------------------------------------------------------------------------------
  // Whatever is accepted is a layout.

  /** A field whose last line has not ended yet. */
  function Open(f: Field): string {
    if f.folds == [] then f.name + ": " + f.value
    else f.name + ": " + f.value + "\r\n" + FoldsText(Front(f.folds)) + Last(f.folds).blank + Last(f.folds).more
  }

  lemma OpenEnds(f: Field)
    ensures Open(f) + "\r\n" == f.Text()
  {
    if f.folds == [] {
      assert FoldsText([]) == "";
    }
  }

  function Line(l: Layout): string { FrontText(l.verb, l.uri) + l.major + "." + l.minor }

  function Head(l: Layout): string { Line(l) + "\r\n" + FieldsText(l.fields) }

  /** Everything up to the last field. */
  function Before(l: Layout): string
    requires l.fields != []
  {
    Line(l) + "\r\n" + FieldsText(Front(l.fields))
  }

  /** What has been consumed when the parser is in a state. */
  function TextAt(st: State, l: Layout): string {
    match st
    case MethodStart => ""
    case Method => l.verb
    case Uri => l.verb + " " + l.uri
    case HttpVersionH => l.verb + " " + l.uri + " "
    case HttpVersionT1 => l.verb + " " + l.uri + " H"
    case HttpVersionT2 => l.verb + " " + l.uri + " HT"
    case HttpVersionP => l.verb + " " + l.uri + " HTT"
    case HttpVersionSlash => l.verb + " " + l.uri + " HTTP"
    case VersionMajorStart => FrontText(l.verb, l.uri)
    case VersionMajor => FrontText(l.verb, l.uri) + l.major
    case VersionMinorStart => FrontText(l.verb, l.uri) + l.major + "."
    case VersionMinor => Line(l)
    case ExpectingNewline1 => Line(l) + "\r"
    case HeaderLineStart => Head(l)
    case HeaderName => if l.fields == [] then "" else Before(l) + Last(l.fields).name
    case SpaceBeforeHeaderValue => if l.fields == [] then "" else Before(l) + Last(l.fields).name + ":"
    case HeaderLws | HeaderValue => if l.fields == [] then "" else Before(l) + Open(Last(l.fields))
    case ExpectingNewline2 => if l.fields == [] then "" else Before(l) + Open(Last(l.fields)) + "\r"
    case ExpectingNewline3 => Head(l) + "\r"
  }

  predicate InVersion(st: State) {
    st in {VersionMajorStart, VersionMajor, VersionMinorStart, VersionMinor, ExpectingNewline1}
  }

  predicate InHeaders(st: State) { !BeforeVersion(st) && !InVersion(st) }

  predicate InField(st: State) {
    st in {HeaderName, SpaceBeforeHeaderValue, HeaderLws, HeaderValue, ExpectingNewline2}
  }

  /** What a layout under construction satisfies in a state. */
  predicate LegalAt(st: State, l: Layout) {
    && (st.MethodStart? ==> l.verb == "") && (!st.MethodStart? ==> l.verb != "")
    && AllTokens(l.verb) && IsUri(l.uri) && (st in {MethodStart, Method} ==> l.uri == "")
    && (if BeforeVersion(st) || st.VersionMajorStart? then l.major == "" else IsNumber(l.major))
    && (if InHeaders(st) || st in {VersionMinor, ExpectingNewline1} then IsNumber(l.minor) else l.minor == "")
    && (!InHeaders(st) ==> l.fields == [])
    && LegalFields(l.fields)
    && (InField(st) ==>
        && l.fields != []
        && var f := Last(l.fields);
        && (st in {HeaderName, SpaceBeforeHeaderValue} ==> f.value == "" && f.folds == [])
        && (st.HeaderLws? ==> f.folds != [] && Last(f.folds).more == "")
        && (st.HeaderValue? && f.folds != [] ==> Last(f.folds).more != ""))
  }

  function MapLast<T>(s: seq<T>, x: T): seq<T>
    requires s != []
  {
    Front(s) + [x]
  }

  function WithLast(l: Layout, f: Field): Layout
    requires l.fields != []
  {
    l.(fields := MapLast(l.fields, f))
  }

  function WithBlank(f: Field, c: char): Field
    requires f.folds != []
  {
    f.(folds := MapLast(f.folds, Last(f.folds).(blank := Last(f.folds).blank + [c])))
  }

  function WithMore(f: Field, c: char): Field {
    if f.folds == [] then f.(value := f.value + [c])
    else f.(folds := MapLast(f.folds, Last(f.folds).(more := Last(f.folds).more + [c])))
  }

  lemma LastFold(folds: seq<Fold>, f: Fold)
    requires folds != [] && LegalFolds(folds) && f.Legal()
    ensures var gs := MapLast(folds, f); gs != [] && Front(gs) == Front(folds) && Last(gs) == f && LegalFolds(gs)
    ensures Last(folds).Legal()
  {
    hide Fold.Legal;
    var gs := MapLast(folds, f);
    forall i | 0 <= i < |gs| ensures gs[i].Legal() {
      if i < |gs| - 1 { assert gs[i] == folds[i]; }
    }
  }

  /** A field whose folds end in f. */
  lemma OpenLast(g: Field, f: Fold)
    requires g.folds != [] && Last(g.folds) == f
    ensures Open(g) == g.name + ": " + g.value + "\r\n" + FoldsText(Front(g.folds)) + f.blank + f.more
  {
    hide FoldsText;
  }

  lemma OpenBlank(f: Field, c: char)
    requires f.Legal() && f.folds != [] && Last(f.folds).more == "" && (c == ' ' || c == '\t')
    ensures Open(WithBlank(f, c)) == Open(f) + [c] && WithBlank(f, c).Legal()
  {
    hide FoldsText, Open, AllTokens, NoCtl, LegalFolds, Fold.Legal;
    var was := Last(f.folds);
    var x, g := was.(blank := was.blank + [c]), WithBlank(f, c);
    assert was.Legal() by { LastIsLegal(f.folds); }
    BlankLegal(was, c);
    LastFold(f.folds, x);
    OpenLast(f, was);
    OpenLast(g, x);
    var before := f.name + ": " + f.value + "\r\n" + FoldsText(Front(f.folds));
    assert before + (was.blank + [c]) + "" == before + was.blank + "" + [c];
  }

  lemma LastIsLegal(folds: seq<Fold>)
    requires folds != [] && LegalFolds(folds)
    ensures Last(folds).Legal()
  {
    hide Fold.Legal;
  }

  lemma BlankLegal(x: Fold, c: char)
    requires x.Legal() && (c == ' ' || c == '\t')
    ensures x.(blank := x.blank + [c]).Legal()
  {
    hide NoCtl;
  }

  lemma MoreLegal(x: Fold, c: char)
    requires x.Legal() && !IsCtl(c) && (x.more != "" || !IsBlank([c]))
    ensures x.(more := x.more + [c]).Legal()
  {
    hide IsCtl;
    if x.more != "" { assert (x.more + [c])[0] == x.more[0]; }
  }

  lemma OpenMore(f: Field, c: char)
    requires f.Legal() && !IsCtl(c) && (f.folds == [] || Last(f.folds).more != "" || !IsBlank([c]))
    ensures Open(WithMore(f, c)) == Open(f) + [c] && WithMore(f, c).Legal()
  {
    hide FoldsText, Open, AllTokens, NoCtl, LegalFolds, Fold.Legal, IsBlank;
    var g := WithMore(f, c);
    if f.folds == [] {
      OpenFirst(f);
      OpenFirst(g);
      MoreNoCtl(f.value, c);
      assert f.name + ": " + (f.value + [c]) == f.name + ": " + f.value + [c];
    } else {
      var was := Last(f.folds);
      var x := was.(more := was.more + [c]);
      LastIsLegal(f.folds);
      MoreLegal(was, c);
      LastFold(f.folds, x);
      OpenLast(f, was);
      OpenLast(g, x);
      var before := f.name + ": " + f.value + "\r\n" + FoldsText(Front(f.folds)) + was.blank;
      assert before + (was.more + [c]) == before + was.more + [c];
    }
  }

  lemma MoreNoCtl(s: string, c: char)
    requires NoCtl(s) && !IsCtl(c)
    ensures NoCtl(s + [c])
  {
    hide IsCtl;
  }

  lemma OpenFold(f: Field, c: char)
    requires f.Legal() && (c == ' ' || c == '\t')
    ensures var g := f.(folds := f.folds + [Fold([c], "")]); Open(g) == f.Text() + [c] && g.Legal()
  {
    hide FoldsText, Open, AllTokens, NoCtl, Fold.Legal;
    var x := Fold([c], "");
    var g := f.(folds := f.folds + [x]);
    assert Front(g.folds) == f.folds && Last(g.folds) == x;
    FreshFoldLegal(c);
    OpenLast(g, x);
    assert f.Text() + [c] + "" == f.Text() + [c];
  }

  lemma FreshFoldLegal(c: char)
    requires c == ' ' || c == '\t'
    ensures Fold([c], "").Legal()
  {
  }

  /** The layout under construction when one more character has passed. */
  function Grow(st: State, l: Layout, c: char): Layout
    requires LegalAt(st, l)
  {
    match st
    case MethodStart => l.(verb := l.verb + [c])
    case Method => if c == ' ' then l else l.(verb := l.verb + [c])
    case Uri => if c == ' ' then l else l.(uri := l.uri + [c])
    case VersionMajorStart => l.(major := l.major + [c])
    case VersionMajor => if c == '.' then l else l.(major := l.major + [c])
    case VersionMinorStart => l.(minor := l.minor + [c])
    case VersionMinor => if c == '\r' then l else l.(minor := l.minor + [c])
    case HeaderLineStart =>
      if c == '\r' then l
      else if l.fields != [] && (c == ' ' || c == '\t') then
        WithLast(l, Last(l.fields).(folds := Last(l.fields).folds + [Fold([c], "")]))
      else l.(fields := l.fields + [Field([c], "", [])])
    case HeaderName =>
      if c == ':' then l else WithLast(l, Last(l.fields).(name := Last(l.fields).name + [c]))
    case HeaderLws =>
      if c == '\r' then l
      else if c == ' ' || c == '\t' then WithLast(l, WithBlank(Last(l.fields), c))
      else WithLast(l, WithMore(Last(l.fields), c))
    case HeaderValue => if c == '\r' then l else WithLast(l, WithMore(Last(l.fields), c))
    case _ => l
  }

  /** The configuration and the layout agree on whether there is a header yet. */
  predicate SameFields(c: Conf, l: Layout) { c.req.headers == [] <==> l.fields == [] }

  ghost predicate GrowsTo(c: Conf, l: Layout, input: char)
    requires c.HasHeader() && LegalAt(c.state, l)
  {
    var d, l' := Step(c, input).1, Grow(c.state, l, input);
    TextAt(d.state, l') == TextAt(c.state, l) + [input] && LegalAt(d.state, l') && SameFields(d, l')
  }

  lemma GrowFront(c: Conf, l: Layout, input: char)
    requires c.HasHeader() && LegalAt(c.state, l) && SameFields(c, l) && Step(c, input).0.Indeterminate?
    requires BeforeVersion(c.state)
    ensures GrowsTo(c, l, input)
  {
    hide IsToken, IsCtl, NextVersion;
    var v, u := l.verb, l.verb + " " + l.uri;
    assert c.state.Method? && input == ' ' ==> v + [input] + "" == v + " " + "";
    assert u + " " + "H" == u + " H" && u + " H" + "T" == u + " HT";
    assert u + " HT" + "T" == u + " HTT" && u + " HTT" + "P" == u + " HTTP";
    assert u + " HTTP" + "/" == FrontText(l.verb, l.uri);
    assert v + " " + (l.uri + [input]) == u + [input];
  }

  lemma GrowVersion(c: Conf, l: Layout, input: char)
    requires c.HasHeader() && LegalAt(c.state, l) && SameFields(c, l) && Step(c, input).0.Indeterminate?
    requires InVersion(c.state)
    ensures GrowsTo(c, l, input)
  {
    hide IsToken, IsCtl, IsDigit, NextVersion, FrontText;
    var f := FrontText(l.verb, l.uri);
    assert f + (l.major + [input]) == f + l.major + [input];
    assert f + l.major + "." + (l.minor + [input]) == f + l.major + "." + l.minor + [input];
    assert f + l.major + "." + "" == f + l.major + ".";
    assert Line(l) + "\r" + "\n" == Line(l) + "\r\n" + FieldsText([]);
  }

  lemma GrowLast(l: Layout, f: Field)
    requires LegalFields(l.fields) && l.fields != [] && f.Legal()
    ensures var l' := WithLast(l, f);
      l'.fields != [] && Last(l'.fields) == f && LegalFields(l'.fields) && Before(l') == Before(l)
  {
    var l' := WithLast(l, f);
    assert Front(l'.fields) == Front(l.fields);
    assert forall i :: 0 <= i < |l.fields| - 1 ==> l'.fields[i] == l.fields[i];
    hide Field.Legal;
  }

  lemma HeadIsBefore(l: Layout)
    requires l.fields != []
    ensures Head(l) == Before(l) + Last(l.fields).Text()
  {
    assert FieldsText(l.fields) == FieldsText(Front(l.fields)) + Last(l.fields).Text();
  }

  lemma NewField(l: Layout, c: char)
    requires LegalFields(l.fields) && IsToken(c)
    ensures var g := Field([c], "", []); var l' := l.(fields := l.fields + [g]);
      l'.fields != [] && Last(l'.fields) == g && LegalFields(l'.fields) && Before(l') == Head(l)
  {
    hide IsToken, FieldsText;
    var g := Field([c], "", []);
    var fs := l.fields + [g];
    assert g.Legal();
    assert Front(fs) == l.fields && Last(fs) == g;
  }

  lemma NewFold(l: Layout, c: char)
    requires LegalFields(l.fields) && l.fields != [] && (c == ' ' || c == '\t')
    ensures var f := Last(l.fields); var g := f.(folds := f.folds + [Fold([c], "")]); var l' := WithLast(l, g);
      && l'.fields != [] && Last(l'.fields) == g && LegalFields(l'.fields)
      && Before(l') + Open(g) == Head(l) + [c] && Last(g.folds).more == ""
  {
    hide FieldsText, Field.Text, Field.Legal, Open, Before, Head, IsBlank;
    var f := Last(l.fields);
    var g := f.(folds := f.folds + [Fold([c], "")]);
    assert f.Legal();
    OpenFold(f, c);
    GrowLast(l, g);
    HeadIsBefore(l);
    assert Before(l) + (f.Text() + [c]) == Before(l) + f.Text() + [c];
  }

  lemma GrowLineStart(c: Conf, l: Layout, input: char)
    requires c.HasHeader() && LegalAt(c.state, l) && SameFields(c, l) && Step(c, input).0.Indeterminate?
    requires c.state.HeaderLineStart?
    ensures GrowsTo(c, l, input)
  {
    hide IsToken, NextVersion, Before, Head, Open, LegalFields, IsNumber, AllTokens, IsUri;
    if input == '\r' {
    } else if l.fields != [] && (input == ' ' || input == '\t') {
      NewFold(l, input);
    } else {
      NewField(l, input);
    }
  }

  lemma GrowName(c: Conf, l: Layout, input: char)
    requires c.HasHeader() && LegalAt(c.state, l) && SameFields(c, l) && Step(c, input).0.Indeterminate?
    requires c.state.HeaderName? || c.state.SpaceBeforeHeaderValue?
    ensures GrowsTo(c, l, input)
  {
    hide IsToken, IsCtl, NextVersion, FrontText, FieldsText, Field.Text, Open;
    var f := Last(l.fields);
    if c.state.HeaderName? && input != ':' {
      var g := f.(name := f.name + [input]);
      assert IsToken(input);
      assert g.Legal();
      GrowLast(l, g);
      assert Before(l) + (f.name + [input]) == Before(l) + f.name + [input];
    } else if c.state.SpaceBeforeHeaderValue? {
      assert Open(f) == f.name + ": " + "" by { OpenFirst(f); }
      assert Before(l) + f.name + ":" + " " == Before(l) + Open(f);
    }
  }

  lemma GrowValue(c: Conf, l: Layout, input: char)
    requires c.HasHeader() && LegalAt(c.state, l) && SameFields(c, l) && Step(c, input).0.Indeterminate?
    requires c.state.HeaderLws? || c.state.HeaderValue?
    ensures GrowsTo(c, l, input)
  {
    hide IsToken, IsCtl, NextVersion, Line, FieldsText, Field.Text, Field.Legal, Open, IsNumber, AllTokens, IsUri, Before;
    var f := Last(l.fields);
    assert f.Legal();
    if input == '\r' {
    } else if c.state.HeaderLws? && (input == ' ' || input == '\t') {
      var g := WithBlank(f, input);
      OpenBlank(f, input);
      GrowLast(l, g);
      assert Before(l) + (Open(f) + [input]) == Before(l) + Open(f) + [input];
    } else {
      var g := WithMore(f, input);
      NotBlank(input);
      OpenMore(f, input);
      GrowLast(l, g);
      assert Before(l) + (Open(f) + [input]) == Before(l) + Open(f) + [input];
    }
  }

  lemma GrowLineEnd(c: Conf, l: Layout, input: char)
    requires c.HasHeader() && LegalAt(c.state, l) && SameFields(c, l) && Step(c, input).0.Indeterminate?
    requires c.state.ExpectingNewline2?
    ensures GrowsTo(c, l, input)
  {
    hide IsToken, IsCtl, NextVersion, Line, FieldsText, Field.Text, Open, Before, Head;
    var f := Last(l.fields);
    OpenEnds(f);
    HeadIsBefore(l);
    assert Before(l) + Open(f) + "\r" + "\n" == Before(l) + (Open(f) + "\r\n");
  }

  lemma OpenFirst(f: Field)
    requires f.folds == []
    ensures Open(f) == f.name + ": " + f.value
  {
  }

  lemma GrowStep(c: Conf, l: Layout, input: char)
    requires c.HasHeader() && LegalAt(c.state, l) && SameFields(c, l) && Step(c, input).0.Indeterminate?
    ensures GrowsTo(c, l, input)
  {
    hide GrowsTo, LegalAt, SameFields;
    if c.state.ExpectingNewline3? { AtEnd(c, input); }
    if BeforeVersion(c.state) {
      GrowFront(c, l, input);
    } else if InVersion(c.state) {
      GrowVersion(c, l, input);
    } else {
      match c.state
      case HeaderLineStart => GrowLineStart(c, l, input);
      case HeaderName | SpaceBeforeHeaderValue => GrowName(c, l, input);
      case HeaderLws | HeaderValue => GrowValue(c, l, input);
      case ExpectingNewline2 => GrowLineEnd(c, l, input);
      case _ =>
    }
  }

  lemma AtEnd(c: Conf, input: char)
    requires c.HasHeader() && c.state.ExpectingNewline3?
    ensures !Step(c, input).0.Indeterminate?
  {
  }

  lemma GoodIsLayout(c: Conf, l: Layout, input: char)
    requires c.HasHeader() && LegalAt(c.state, l) && Step(c, input).0.Good?
    ensures l.Legal() && l.Text() == TextAt(c.state, l) + [input]
  {
    hide IsToken, IsCtl, NextVersion, FrontText, FieldsText;
    assert Head(l) + "\r" + "\n" == l.Text();
  }

  /** The layout of the rest of a good run. */
  lemma {:induction false} LayoutOfRun(c: Conf, l: Layout, p: string, input: string) returns (r: Layout)
    requires c.HasHeader() && LegalAt(c.state, l) && SameFields(c, l) && p == TextAt(c.state, l)
    requires Run(c, input).verdict.Good?
    ensures r.Legal() && r.Text() == p + input[..Run(c, input).used]
    decreases |input|
  {
    hide Step, LegalAt, SameFields, TextAt, Layout.Legal, Layout.Text;
    var n := Run(c, input).used;
    assert p + input[..n] == p + [input[0]] + input[1..][..n - 1];
    if Step(c, input[0]).0.Indeterminate? {
      GrowStep(c, l, input[0]);
      r := LayoutOfRun(Step(c, input[0]).1, Grow(c.state, l, input[0]), p + [input[0]], input[1..]);
    } else {
      GoodIsLayout(c, l, input[0]);
      r := l;
    }
  }

  ghost predicate Begins(l: Layout, input: string) { l.Legal() && l.Text() <= input }

  lemma StartsEmpty(r: Request)
    requires r.headers == []
    ensures var l, c := Layout("", "", "", "", []), Conf(MethodStart, r);
      LegalAt(MethodStart, l) && SameFields(c, l) && TextAt(MethodStart, l) == ""
  {
  }

  /** An input is good exactly when a legal layout begins it; the parse then ends where the layout
      does, and the request is what the layout means. */
  lemma AcceptsExactlyLayouts(major: int, minor: int, input: string)
    ensures ParseFrom(Cleared(major, minor), input).verdict.Good? <==> exists l :: Begins(l, input)
    ensures forall l :: Begins(l, input) ==>
      ParseFrom(Cleared(major, minor), input) == Outcome(Good, Conf(ExpectingNewline3, l.Meaning()), |l.Text()|)
  {
    hide Run, Layout.Legal, Layout.Text, Layout.Meaning, LegalAt, SameFields, TextAt;
    forall l: Layout | Begins(l, input)
      ensures ParseFrom(Cleared(major, minor), input) == Outcome(Good, Conf(ExpectingNewline3, l.Meaning()), |l.Text()|)
    {
      var rest := input[|l.Text()|..];
      LayoutParses(l, major, minor, rest);
      assert l.Text() + rest == input;
    }
    var o := ParseFrom(Cleared(major, minor), input);
    if o.verdict.Good? {
      StartsEmpty(Cleared(major, minor));
      var r := LayoutOfRun(Conf(MethodStart, Cleared(major, minor)), Layout("", "", "", "", []), "", input);
      assert "" + input[..o.used] == input[..o.used];
      assert Begins(r, input);
    }
  }

  // ---------------------------------------------------------------------------------
  // Nothing is refused too late or too early.

  /** How many characters it takes at least to get from a state to the end. */
  function Distance(st: State): nat {
    match st
    case ExpectingNewline3 => 1
    case HeaderLineStart => 2
    case ExpectingNewline1 | ExpectingNewline2 => 3
    case HeaderLws | HeaderValue | VersionMinor => 4
    case SpaceBeforeHeaderValue | VersionMinorStart => 5
    case HeaderName | VersionMajor => 6
    case VersionMajorStart => 7
    case HttpVersionSlash => 8
    case HttpVersionP => 9
    case HttpVersionT2 => 10
    case HttpVersionT1 => 11
    case HttpVersionH => 12
    case Uri => 13
    case Method => 14
    case MethodStart => 15
  }

  /** A character that leads on from a state. */
  function WayOut(st: State): char {
    match st
    case ExpectingNewline1 | ExpectingNewline2 | ExpectingNewline3 => '\n'
    case HeaderLineStart | HeaderLws | HeaderValue | VersionMinor => '\r'
    case SpaceBeforeHeaderValue | Uri | Method => ' '
    case VersionMinorStart | VersionMajorStart => '0'
    case HeaderName => ':'
    case VersionMajor => '.'
    case HttpVersionSlash => '/'
    case HttpVersionP => 'P'
    case HttpVersionT2 | HttpVersionT1 => 'T'
    case HttpVersionH => 'H'
    case MethodStart => 'G'
  }

  lemma WayOutLeadsOn(c: Conf)
    requires c.HasHeader()
    ensures var (v, d) := Step(c, WayOut(c.state));
      if c.state.ExpectingNewline3? then v.Good? else v.Indeterminate? && Distance(d.state) + 1 == Distance(c.state)
  {
    hide NextVersion;
  }

  lemma {:induction false} CanFinish(c: Conf) returns (more: string)
    requires c.HasHeader()
    ensures Run(c, more).verdict.Good?
    decreases Distance(c.state)
  {
    WayOutLeadsOn(c);
    hide Step;
    var x := WayOut(c.state);
    more := [x];
    if !c.state.ExpectingNewline3? {
      var rest := CanFinish(Step(c, x).1);
      more := [x] + rest;
      assert more[1..] == rest;
    }
  }

  /** An input is bad exactly when nothing that might still arrive could make it good. */
  lemma BadIsHopeless(major: int, minor: int, input: string)
    ensures ParseFrom(Cleared(major, minor), input).verdict.Bad?
       <==> forall more :: !ParseFrom(Cleared(major, minor), input + more).verdict.Good?
  {
    hide Run, Step;
    var r := Cleared(major, minor);
    forall more ensures ParseFrom(r, input).verdict.Bad? ==> ParseFrom(r, input + more).verdict.Bad? {
      ReparseIsResume(r, input, more);
    }
    var o := ParseFrom(r, input);
    if !o.verdict.Bad? {
      var more := "";
      if o.verdict.Indeterminate? {
        more := CanFinish(o.conf);
      }
      ReparseIsResume(r, input, more);
      assert ParseFrom(r, input + more).verdict.Good?;
    }
  }
}
