/** The parser's language written in characters: which ones each state takes, and what a request
    may consist of, without the character classes that the parser and its grammar share. */
module RequestChars {
  import opened Basics
  import opened RequestSpec
  import opened RequestGrammar

  /** A letter, a digit, or one of the marks that may stand in a method or a header name. */
  predicate Listed(c: char) {
    'A' <= c <= 'Z' || 'a' <= c <= 'z' || '0' <= c <= '9' || c in "!#$%&'*+-.^_`|~"
  }

  /** Not a control character; the bytes from 128 on are none. */
  predicate Shown(c: char) { ' ' <= c && c as int != 127 }

  lemma ClassesByCharacter(c: char)
    ensures IsToken(c) <==> Listed(c)
    ensures IsCtl(c) <==> !Shown(c)
    ensures IsDigit(c) <==> c in "0123456789"
  {
  }

  /** For every state, the characters it refuses. */
  lemma RefusedByCharacter(c: Conf, x: char)
    requires c.HasHeader()
    ensures c.state.MethodStart? ==> (Step(c, x).0.Bad? <==> !Listed(x))
    ensures c.state.Method? ==> (Step(c, x).0.Bad? <==> x != ' ' && !Listed(x))
    ensures c.state.Uri? ==> (Step(c, x).0.Bad? <==> !Shown(x))
    ensures c.state.VersionMajorStart? || c.state.VersionMinorStart? ==>
      (Step(c, x).0.Bad? <==> x !in "0123456789")
    ensures c.state.VersionMajor? ==> (Step(c, x).0.Bad? <==> x !in ".0123456789")
    ensures c.state.VersionMinor? ==> (Step(c, x).0.Bad? <==> x !in "\r0123456789")
    ensures c.state.HeaderLineStart? ==>
      (Step(c, x).0.Bad? <==> x != '\r' && !Listed(x) && (c.req.headers == [] || x !in " \t"))
    ensures c.state.HeaderName? ==> (Step(c, x).0.Bad? <==> x != ':' && !Listed(x))
    ensures c.state.HeaderValue? ==> (Step(c, x).0.Bad? <==> x != '\r' && !Shown(x))
    ensures c.state.HeaderLws? ==> (Step(c, x).0.Bad? <==> x !in "\r\t" && !Shown(x))
  {
    ClassesByCharacter(x);
    SpaceIsShown();
    hide IsToken, IsCtl, IsDigit, Listed, Shown, NextVersion, AddToName, AddToValue;
  }

  lemma SpaceIsShown()
    ensures Shown(' ')
  {
  }

  /** The other states wait for one character. */
  lemma AwaitedByCharacter(c: Conf, x: char)
    requires c.HasHeader() && !Step(c, x).0.Bad?
    ensures match c.state
      case HttpVersionH => x == 'H'
      case HttpVersionT1 => x == 'T'
      case HttpVersionT2 => x == 'T'
      case HttpVersionP => x == 'P'
      case HttpVersionSlash => x == '/'
      case SpaceBeforeHeaderValue => x == ' '
      case ExpectingNewline1 => x == '\n'
      case ExpectingNewline2 => x == '\n'
      case ExpectingNewline3 => x == '\n'
      case _ => true
  {
    hide IsToken, IsCtl, IsDigit, NextVersion, AddToName, AddToValue;
  }

  // ---------------------------------------------------------------------------------
  // Whole requests.

  predicate AllListed(s: string) { forall i :: 0 <= i < |s| ==> Listed(s[i]) }

  predicate AllShown(s: string) { forall i :: 0 <= i < |s| ==> Shown(s[i]) }

  predicate AllDecimal(s: string) { forall i :: 0 <= i < |s| ==> s[i] in "0123456789" }

  predicate FoldShown(f: Fold) {
    && f.blank != "" && (forall i :: 0 <= i < |f.blank| ==> f.blank[i] in " \t")
    && AllShown(f.more) && (f.more != "" ==> f.more[0] != ' ')
  }

  predicate FieldShown(f: Field) {
    f.name != "" && AllListed(f.name) && AllShown(f.value) && forall i :: 0 <= i < |f.folds| ==> FoldShown(f.folds[i])
  }

  /** A layout that is legal by its characters alone. */
  predicate WellSpelled(l: Layout) {
    && l.verb != "" && AllListed(l.verb) && AllShown(l.uri) && ' ' !in l.uri
    && l.major != "" && AllDecimal(l.major) && l.minor != "" && AllDecimal(l.minor)
    && forall i :: 0 <= i < |l.fields| ==> FieldShown(l.fields[i])
  }

  lemma TokensByCharacter(s: string)
    ensures AllTokens(s) <==> AllListed(s)
    ensures NoCtl(s) <==> AllShown(s)
    ensures IsUri(s) <==> AllShown(s) && ' ' !in s
    ensures IsNumber(s) <==> s != "" && AllDecimal(s)
  {
    forall i | 0 <= i < |s|
      ensures (IsToken(s[i]) <==> Listed(s[i])) && (IsCtl(s[i]) <==> !Shown(s[i]))
      ensures IsDigit(s[i]) <==> s[i] in "0123456789"
    {
      ClassesByCharacter(s[i]);
    }
    hide IsToken, IsCtl, IsDigit, Listed, Shown;
  }

  lemma FoldByCharacter(f: Fold)
    ensures f.Legal() <==> FoldShown(f)
  {
    TokensByCharacter(f.more);
    if f.more != "" {
      BlankCharacter(f.more[0]);
    }
    hide NoCtl, AllShown;
  }

  lemma BlankCharacter(c: char)
    ensures IsBlank([c]) <==> c == ' ' || c == '\t'
  {
    assert [c][0] == c;
  }

  lemma FieldByCharacter(f: Field)
    ensures f.Legal() <==> FieldShown(f)
  {
    TokensByCharacter(f.name);
    TokensByCharacter(f.value);
    forall i | 0 <= i < |f.folds| ensures f.folds[i].Legal() <==> FoldShown(f.folds[i]) {
      FoldByCharacter(f.folds[i]);
    }
    hide NoCtl, AllShown, AllTokens, AllListed, Fold.Legal, FoldShown;
  }

  lemma LegalByCharacter(l: Layout)
    ensures l.Legal() <==> WellSpelled(l)
  {
    TokensByCharacter(l.verb);
    TokensByCharacter(l.uri);
    TokensByCharacter(l.major);
    TokensByCharacter(l.minor);
    forall i | 0 <= i < |l.fields| ensures l.fields[i].Legal() <==> FieldShown(l.fields[i]) {
      FieldByCharacter(l.fields[i]);
    }
    hide IsNumber, IsUri, AllDecimal, AllShown, AllTokens, AllListed, Field.Legal, FieldShown;
  }

  predicate Spells(l: Layout, input: string) { WellSpelled(l) && l.Text() <= input }

  /** The parser accepts an input exactly when it begins with a request that is spelled in the
      characters listed above, laid out as the grammar says. */
  lemma AcceptsExactlySpelled(major: int, minor: int, input: string)
    ensures ParseFrom(Cleared(major, minor), input).verdict.Good? <==> exists l :: Spells(l, input)
  {
    hide Run, Layout.Legal, Layout.Text, WellSpelled;
    AcceptsExactlyLayouts(major, minor, input);
    forall l: Layout ensures Begins(l, input) <==> Spells(l, input) { LegalByCharacter(l); }
  }

  /** A request line is accepted with every URI of characters from '!' to '~', and is good at its
      last character when a blank line follows it. */
  lemma PrintableUriAccepted(verb: string, uri: string)
    requires verb != "" && AllListed(verb) && forall i :: 0 <= i < |uri| ==> '!' <= uri[i] <= '~'
    ensures var s := verb + " " + uri + " HTTP/1.1\r\n\r\n";
      ParseFrom(Cleared(0, 0), s) == Outcome(Good, Conf(ExpectingNewline3, Request(verb, uri, 1, 1, [])), |s|)
  {
    hide Run, Step, WellSpelled, Layout.Legal, FieldsText, FieldsMeaning, Number, AllListed;
    var l := Layout(verb, uri, "1", "1", []);
    NoFields();
    NumberOne();
    PrintableIsSpelled(l);
    LegalByCharacter(l);
    LayoutParses(l, 0, 0, "");
    assert l.Text() + "" == l.Text() == verb + " " + uri + " HTTP/1.1\r\n\r\n";
  }

  lemma PrintableIsSpelled(l: Layout)
    requires l.verb != "" && AllListed(l.verb) && l.major == l.minor == "1" && l.fields == []
    requires forall i :: 0 <= i < |l.uri| ==> '!' <= l.uri[i] <= '~'
    ensures WellSpelled(l)
  {
    hide Listed;
  }

  lemma NumberOne()
    ensures Number("1") == 1
  {
    assert Front("1") == "" && Last("1") == '1';
    assert Number("") == 0;
  }

  /** A percent sign, for one. */
  lemma PercentExample()
    ensures ParseFrom(Cleared(0, 0), "GET /a%20b HTTP/1.1\r\n\r\n")
         == Outcome(Good, Conf(ExpectingNewline3, Request("GET", "/a%20b", 1, 1, [])), 23)
  {
    hide ParseFrom;
    PrintableUriAccepted("GET", "/a%20b");
    assert "GET" + " " + "/a%20b" + " HTTP/1.1\r\n\r\n" == "GET /a%20b HTTP/1.1\r\n\r\n";
  }
}
