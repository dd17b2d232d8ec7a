/** Parsing what comes behind a cut in a request: it never finds the same request. */
module RequestReads {
  import opened Basics
  import opened RequestSpec
  import opened RequestGrammar

  // How many headers an input starts, given whether it continues behind a line end.
  function NewFields(atLine: bool, s: string): nat
    decreases |s|
  {
    if s == "" then 0 else
    (if atLine && s[0] != ' ' && s[0] != '\t' && s[0] != '\r' then 1 else 0) + NewFields(s[0] == '\n', s[1..])
  }

  lemma FieldsStep(c: Conf, x: char)
    requires c.HasHeader() && !Step(c, x).0.Bad?
    ensures |Step(c, x).1.req.headers| == |c.req.headers|
      + if c.state.HeaderLineStart? && x != ' ' && x != '\t' && x != '\r' then 1 else 0
    ensures Step(c, x).0.Indeterminate? ==> (Step(c, x).1.state.HeaderLineStart? <==> x == '\n')
  {
    hide NextVersion;
    StepLines(c, x);
  }

  lemma {:induction false} FieldsRun(c: Conf, s: string)
    requires c.HasHeader() && Run(c, s).verdict.Good?
    ensures |Run(c, s).conf.req.headers|
         == |c.req.headers| + NewFields(c.state.HeaderLineStart?, s[..Run(c, s).used])
    decreases |s|
  {
    hide Step;
    FieldsStep(c, s[0]);
    var t := s[..Run(c, s).used];
    if Step(c, s[0]).0.Indeterminate? {
      FieldsRun(Step(c, s[0]).1, s[1..]);
      assert t[0] == s[0] && t[1..] == s[1..][..Run(Step(c, s[0]).1, s[1..]).used];
    } else {
      GoodStep(c, s[0]);
      assert t == [s[0]] && t[1..] == "";
    }
  }

  lemma GoodStep(c: Conf, x: char)
    requires c.HasHeader() && Step(c, x).0.Good?
    ensures c.state.ExpectingNewline3? && Step(c, x).1 == c
  {
  }

  // The spaces of the request line.
  function SpacesBeforeCr(s: string): nat {
    if s == "" || s[0] == '\r' then 0 else (if s[0] == ' ' then 1 else 0) + SpacesBeforeCr(s[1..])
  }

  predicate InLine(st: State) { BeforeVersion(st) || (InVersion(st) && !st.ExpectingNewline1?) }

  function SpacesToGo(st: State): nat {
    if st.MethodStart? || st.Method? then 2 else if st.Uri? then 1 else 0
  }

  lemma SpacesStep(c: Conf, x: char)
    requires c.HasHeader() && InLine(c.state) && !Step(c, x).0.Bad?
    ensures Step(c, x).0.Indeterminate?
    ensures x == '\r' ==> SpacesToGo(c.state) == 0
    ensures x != '\r' ==> InLine(Step(c, x).1.state)
    ensures x != '\r' ==> SpacesToGo(c.state) == (if x == ' ' then 1 else 0) + SpacesToGo(Step(c, x).1.state)
  {
    hide NextVersion;
  }

  lemma {:induction false} SpacesRun(c: Conf, s: string)
    requires c.HasHeader() && InLine(c.state) && Run(c, s).verdict.Good?
    ensures SpacesBeforeCr(s) == SpacesToGo(c.state)
    decreases |s|
  {
    hide Step;
    SpacesStep(c, s[0]);
    if s[0] != '\r' {
      SpacesRun(Step(c, s[0]).1, s[1..]);
    }
  }

  // The method.
  function BeforeSpace(s: string): string {
    if s == "" || s[0] == ' ' then "" else [s[0]] + BeforeSpace(s[1..])
  }

  predicate InMethod(st: State) { st.MethodStart? || st.Method? }

  lemma VerbStep(c: Conf, x: char)
    requires c.HasHeader() && !Step(c, x).0.Bad?
    ensures InMethod(c.state) ==> (InMethod(Step(c, x).1.state) <==> x != ' ')
    ensures !InMethod(c.state) ==> !InMethod(Step(c, x).1.state)
    ensures Step(c, x).1.req.verb == c.req.verb + if InMethod(c.state) && x != ' ' then [x] else ""
  {
    hide NextVersion;
  }

  lemma RunMore(c: Conf, s: string)
    requires c.HasHeader() && s != "" && Step(c, s[0]).0.Indeterminate?
    ensures var d, o := Step(c, s[0]).1, Run(Step(c, s[0]).1, s[1..]);
      d.HasHeader() && Run(c, s) == o.(used := o.used + 1)
  {
    hide Step, Conf.HasHeader;
  }

  lemma RunEnds(c: Conf, s: string)
    requires c.HasHeader() && s != "" && !Step(c, s[0]).0.Indeterminate?
    ensures Run(c, s) == Outcome(Step(c, s[0]).0, Step(c, s[0]).1, 1)
  {
    hide Step, Conf.HasHeader;
  }

  lemma BeforeSpaceStep(s: string)
    requires s != ""
    ensures BeforeSpace(s) == if s[0] == ' ' then "" else [s[0]] + BeforeSpace(s[1..])
  {
  }

  lemma {:induction false} VerbRun(c: Conf, s: string)
    requires c.HasHeader() && Run(c, s).verdict.Good?
    ensures Run(c, s).conf.req.verb == c.req.verb + if InMethod(c.state) then BeforeSpace(s) else ""
    decreases |s|
  {
    hide Run, Step, BeforeSpace;
    NotEmpty(c, s);
    BeforeSpaceStep(s);
    var d := Step(c, s[0]).1;
    if Step(c, s[0]).0.Indeterminate? {
      RunMore(c, s);
      VerbStep(c, s[0]);
      VerbRun(d, s[1..]);
      if InMethod(c.state) && s[0] != ' ' {
        Regroup(c.req.verb, s[0], BeforeSpace(s[1..]));
      }
    } else {
      RunEnds(c, s);
      GoodStep(c, s[0]);
    }
  }

  lemma NotEmpty(c: Conf, s: string)
    requires c.HasHeader() && Run(c, s).verdict.Good?
    ensures s != ""
  {
    hide Step;
  }

  lemma Regroup(a: string, x: char, b: string)
    ensures a + [x] + b == a + ([x] + b)
  {
  }

  // Where the two parses end.
  lemma FirstChar(r: Request, b: string)
    requires ParseFrom(r, b).verdict.Good?
    ensures b != "" && IsToken(b[0])
  {
    hide IsToken;
  }

  /** If a + b and b are both good, and a is not yet good, both end at the same place. */
  lemma SameEnd(r: Request, a: string, b: string)
    requires r.headers == [] && ParseFrom(r, a).verdict.Indeterminate?
    requires ParseFrom(r, a + b).verdict.Good? && ParseFrom(r, b).verdict.Good?
    ensures ParseFrom(r, a + b).used == |a| + ParseFrom(r, b).used
  {
    hide Run, Step;
    ReparseIsResume(r, a, b);
    UsedSome(ParseFrom(r, a).conf, b);
    GoodEndsAtFirstBlankLine(r, a + b);
    GoodEndsAtFirstBlankLine(r, b);
    FirstChar(r, b);
    TokenNoLineEnd(b[0]);
    hide ParseFrom, IsToken;
    var p, q := ParseFrom(r, a + b).used, ParseFrom(r, b).used;
    BlankLineShifts(a, b, q);
    BlankLineShifts(a, b, p - |a|);
  }

  lemma UsedSome(c: Conf, s: string)
    requires c.HasHeader() && Run(c, s).verdict.Good?
    ensures Run(c, s).used >= 1
  {
    hide Step;
  }

  lemma TokenNoLineEnd(x: char)
    requires IsToken(x)
    ensures x != '\r' && x != '\n' && x != ' ' && x != '\t'
  {
  }

  lemma BlankLineShifts(a: string, b: string, q: int)
    requires 1 <= q <= |b| && b[0] != '\r' && b[0] != '\n'
    ensures BlankLineEndsAt(a + b, |a| + q) <==> BlankLineEndsAt(b, q)
  {
  }

  /** Only a run over nothing ends in the first state. */
  lemma {:induction false} NotAtStart(c: Conf, s: string)
    requires c.HasHeader() && s != "" && Run(c, s).verdict.Indeterminate?
    ensures !Run(c, s).conf.state.MethodStart?
    decreases |s|
  {
    var d := Step(c, s[0]).1;
    if |s| > 1 {
      hide Step;
      NotAtStart(d, s[1..]);
    } else {
      assert s[1..] == "";
    }
  }

  lemma OnlyLineStates(c: Conf, x: char)
    requires c.HasHeader() && IsToken(x) && c.req.headers == [] && !c.state.HeaderLineStart? && !Step(c, x).0.Bad?
    ensures InLine(c.state)
  {
  }

  /** Where the parser stands after a, if a + b and b were parsed to the same number of headers. */
  lemma CutInLine(r: Request, a: string, b: string)
    requires r.headers == [] && ParseFrom(r, a).verdict.Indeterminate?
    requires ParseFrom(r, a + b).verdict.Good? && ParseFrom(r, b).verdict.Good?
    requires |ParseFrom(r, a + b).conf.req.headers| == |ParseFrom(r, b).conf.req.headers|
    ensures InLine(ParseFrom(r, a).conf.state)
  {
    hide Run, Step, IsToken;
    var c := ParseFrom(r, a).conf;
    ReparseIsResume(r, a, b);
    SameEnd(r, a, b);
    FirstChar(r, b);
    TokenNoLineEnd(b[0]);
    FieldsRun(c, b);
    FieldsRun(Conf(MethodStart, r), b);
    UsedSome(c, b);
    var t := b[..Run(c, b).used];
    hide NewFields;
    GoodFirst(c, b);
    assert c.req.headers == [] && !c.state.HeaderLineStart?;
    OnlyLineStates(c, b[0]);
  }

  lemma GoodFirst(c: Conf, s: string)
    requires c.HasHeader() && Run(c, s).verdict.Good?
    ensures s != "" && !Step(c, s[0]).0.Bad?
  {
    hide Step;
  }

  /** A good request that was cut at a place where it was not yet good is found by parsing what comes
      behind the cut exactly if there is nothing before it. */
  lemma CutRequestLost(a: string, b: string, major: int, minor: int)
    requires ParseFrom(Cleared(major, minor), a).verdict.Indeterminate?
    requires ParseFrom(Cleared(major, minor), a + b).verdict.Good?
    ensures var whole, rest := ParseFrom(Cleared(major, minor), a + b), ParseFrom(Cleared(major, minor), b);
      rest.verdict.Good? && rest.conf.req == whole.conf.req <==> a == ""
  {
    hide Run, Step, IsToken;
    var r := Cleared(major, minor);
    var c, rest, whole := ParseFrom(r, a).conf, ParseFrom(r, b), ParseFrom(r, a + b);
    if a == "" {
      assert a + b == b;
    } else if rest.verdict.Good? && rest.conf.req.headers == whole.conf.req.headers {
      var start := Conf(MethodStart, r);
      ReparseIsResume(r, a, b);
      CutInLine(r, a, b);
      SpacesRun(c, b);
      SpacesRun(start, b);
      NotAtStart(start, a);
      assert c.state.Method?;
      VerbRun(c, b);
      VerbRun(start, b);
      VerbBegun(start, a);
      assert |whole.conf.req.verb| > |rest.conf.req.verb|;
    }
  }

  /** A method that is being read has at least one character. */
  lemma {:induction false} VerbBegun(c: Conf, s: string)
    requires c.HasHeader() && Run(c, s).verdict.Indeterminate?
    requires InMethod(c.state) && (c.state.Method? ==> c.req.verb != "")
    ensures Run(c, s).conf.state.Method? ==> Run(c, s).conf.req.verb != ""
    decreases |s|
  {
    if s != "" {
      var d := Step(c, s[0]).1;
      VerbStep(c, s[0]);
      if InMethod(d.state) {
        assert d.state.Method? && d.req.verb != "";
        hide Step;
        VerbBegun(d, s[1..]);
      } else {
        hide Step;
        NeverBack(d, s[1..]);
      }
    }
  }

  lemma {:induction false} NeverBack(c: Conf, s: string)
    requires c.HasHeader() && Run(c, s).verdict.Indeterminate? && !InMethod(c.state)
    ensures !InMethod(Run(c, s).conf.state)
    decreases |s|
  {
    if s != "" {
      VerbStep(c, s[0]);
      hide Step;
      NeverBack(Step(c, s[0]).1, s[1..]);
    }
  }

  lemma SpaceFirstIsBad(r: Request, s: string)
    requires s != "" && s[0] == ' '
    ensures ParseFrom(r, s).verdict.Bad?
  {
  }

  lemma TokenAlone(r: Request, x: char)
    requires IsToken(x)
    ensures ParseFrom(r, [x]).verdict.Indeterminate?
  {
    hide IsToken;
    LeadsOne(Conf(MethodStart, r), x, Conf(Method, r.(verb := r.verb + [x])));
  }

  lemma ShortLayout(l: Layout)
    requires l == Layout("G", "/", "1", "1", [])
    ensures l.Legal() && l.Text() == "G" + " / HTTP/1.1\r\n\r\n" && IsToken('G')
  {
    assert IsToken('G');
    assert FieldsText([]) == "";
    assert l.Text() == "G" + " / HTTP/1.1\r\n\r\n";
  }

  /** "G" and then " / HTTP/1.1" and two line ends: the whole is good, and its second part is bad. */
  lemma CutExample()
    ensures var whole := ParseFrom(Cleared(0, 0), "G" + " / HTTP/1.1\r\n\r\n");
      whole.verdict.Good? && ParseFrom(Cleared(0, 0), " / HTTP/1.1\r\n\r\n").verdict.Bad?
    ensures ParseFrom(Cleared(0, 0), "G").verdict.Indeterminate?
  {
    hide ParseFrom, Layout.Legal, Layout.Text, IsToken;
    var l := Layout("G", "/", "1", "1", []);
    ShortLayout(l);
    LayoutParses(l, 0, 0, "");
    assert l.Text() + "" == "G" + " / HTTP/1.1\r\n\r\n";
    assert "G" == ['G'];
    SpaceFirstIsBad(Cleared(0, 0), " / HTTP/1.1\r\n\r\n");
    TokenAlone(Cleared(0, 0), 'G');
  }
}
