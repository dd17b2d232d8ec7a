/** Folded header lines: what section 2.2 of RFC 2616 makes of them, and when the parser, which joins
    the lines without anything between, agrees. */
module RequestFolding {
  import opened Basics
  import opened RequestSpec
  import opened RequestGrammar

  /** A header value by section 2.2 of RFC 2616: a fold and the blanks behind it are one space. */
  function Unfolded(value: string, folds: seq<Fold>): string {
    if folds == [] then value else Unfolded(value, Front(folds)) + " " + Last(folds).more
  }

  lemma {:induction false} UnfoldedLength(value: string, folds: seq<Fold>)
    ensures |Unfolded(value, folds)| == |value + FoldsMore(folds)| + |folds|
    decreases |folds|
  {
    if folds != [] {
      UnfoldedLength(value, Front(folds));
    }
  }

  /** Character by character, the parser agrees with the standard exactly on unfolded headers. */
  lemma SameValueIffUnfolded(f: Field)
    ensures f.Meaning().value == Unfolded(f.value, f.folds) <==> f.folds == []
  {
    UnfoldedLength(f.value, f.folds);
    if f.folds == [] {
      assert f.value + "" == f.value;
    }
  }

  // ---------------------------------------------------------------------------------
  // The words of a value. The standard lets a recipient replace blanks by one space, and drop those
  // at both ends, so two values mean the same if they have the same words.

  predicate AtBreak(s: string) { s == "" || Last(s) == ' ' }

  function Words(s: string): (ws: seq<string>)
    ensures AtBreak(s) || ws != []
    decreases |s|
  {
    if s == "" then []
    else if Last(s) == ' ' then Words(Front(s))
    else if AtBreak(Front(s)) then Words(Front(s)) + [[Last(s)]]
    else Front(Words(Front(s))) + [Last(Words(Front(s))) + [Last(s)]]
  }

  lemma AppendSnoc(a: string, t: string)
    requires t != ""
    ensures Front(a + t) == a + Front(t) && Last(a + t) == Last(t)
  {
  }

  lemma AppendBreak(a: string, t: string)
    ensures AtBreak(a + t) <==> if t == "" then AtBreak(a) else Last(t) == ' '
  {
    if t == "" {
      assert a + t == a;
    } else {
      AppendSnoc(a, t);
    }
  }

  lemma RegroupWords(a: seq<string>, b: seq<string>, c: char)
    requires b != []
    ensures Front(a + b) + [Last(a + b) + [c]] == a + (Front(b) + [Last(b) + [c]])
  {
  }

  /** Behind a break the words of a text are new ones. */
  lemma {:induction false} WordsBehindBreak(a: string, t: string)
    requires AtBreak(a)
    ensures Words(a + t) == Words(a) + Words(t)
    decreases |t|
  {
    if t == "" {
      assert a + t == a;
    } else {
      WordsBehindBreak(a, Front(t));
      AppendSnoc(a, t);
      AppendBreak(a, Front(t));
      if Last(t) != ' ' && !AtBreak(Front(t)) {
        RegroupWords(Words(a), Words(Front(t)), Last(t));
      }
    }
  }

  /** Without a break before it, the first word of a text is glued to the one before. */
  lemma {:induction false} WordsGlued(a: string, t: string)
    requires !AtBreak(a) && t != "" && t[0] != ' '
    ensures |Words(a + t)| == |Words(a)| + |Words(t)| - 1
    decreases |t|
  {
    AppendSnoc(a, t);
    AppendBreak(a, Front(t));
    if |t| > 1 {
      WordsGlued(a, Front(t));
    } else {
      assert Front(t) == "" && a + "" == a;
    }
  }

  lemma WordsSpace(a: string)
    ensures Words(a + " ") == Words(a) && AtBreak(a + " ")
  {
    assert Front(a + " ") == a;
  }

  /** Every fold that adds text comes where the value is empty or ends with a space. */
  predicate Separated(value: string, folds: seq<Fold>) {
    folds == [] ||
    (Separated(value, Front(folds)) && (Last(folds).more != "" ==> AtBreak(value + FoldsMore(Front(folds)))))
  }

  lemma FoldSnoc(value: string, folds: seq<Fold>)
    requires folds != []
    ensures Unfolded(value, folds) == Unfolded(value, Front(folds)) + " " + Last(folds).more
    ensures value + FoldsMore(folds) == value + FoldsMore(Front(folds)) + Last(folds).more
  {
  }

  lemma {:induction false} MoreThanGlued(value: string, folds: seq<Fold>)
    requires LegalFolds(folds)
    ensures var u, j := Words(Unfolded(value, folds)), Words(value + FoldsMore(folds));
      if Separated(value, folds) then u == j else |j| < |u|
    decreases |folds|
  {
    if folds == [] {
      assert value + "" == value;
    } else {
      hide Words, AtBreak, Unfolded, FoldsMore, Fold.Legal;
      assert Last(folds).Legal();
      MoreThanGlued(value, Front(folds));
      FoldSnoc(value, folds);
      OneFold(Unfolded(value, Front(folds)), value + FoldsMore(Front(folds)), Last(folds));
    }
  }

  lemma OneFold(u: string, j: string, f: Fold)
    requires f.Legal()
    ensures |Words(u + " " + f.more)| - |Words(j + f.more)| == |Words(u)| - |Words(j)|
      + if f.more == "" || AtBreak(j) then 0 else 1
    ensures Words(u) == Words(j) && (f.more == "" || AtBreak(j)) ==> Words(u + " " + f.more) == Words(j + f.more)
  {
    hide Words;
    WordsSpace(u);
    WordsBehindBreak(u + " ", f.more);
    if f.more == "" {
      assert j + f.more == j && u + " " + f.more == u + " ";
    } else if AtBreak(j) {
      WordsBehindBreak(j, f.more);
    } else {
      NotBlank(f.more[0]);
      WordsGlued(j, f.more);
    }
  }

  /** The parser's value has the words that the standard gives it, exactly when every fold with text
      behind it comes where the value is empty or ends with a space. */
  lemma SameWordsIffSeparated(f: Field)
    requires f.Legal()
    ensures Words(f.Meaning().value) == Words(Unfolded(f.value, f.folds)) <==> Separated(f.value, f.folds)
  {
    hide Words, Separated;
    MoreThanGlued(f.value, f.folds);
  }

  // ---------------------------------------------------------------------------------
  // The same for whole requests.

  function UnfoldedFields(fs: seq<Field>): seq<Header> {
    if fs == [] then [] else
    UnfoldedFields(Front(fs)) + [Header(Last(fs).name, Unfolded(Last(fs).value, Last(fs).folds))]
  }

  predicate SameWords(hs: seq<Header>, gs: seq<Header>) {
    |hs| == |gs| && forall i :: 0 <= i < |hs| ==> hs[i].name == gs[i].name && Words(hs[i].value) == Words(gs[i].value)
  }

  lemma {:induction false} FieldAt(fs: seq<Field>, i: nat)
    requires i < |fs|
    ensures |FieldsMeaning(fs)| == |UnfoldedFields(fs)| == |fs|
    ensures FieldsMeaning(fs)[i] == fs[i].Meaning()
    ensures UnfoldedFields(fs)[i] == Header(fs[i].name, Unfolded(fs[i].value, fs[i].folds))
    decreases |fs|
  {
    hide Field.Meaning, Unfolded;
    if |fs| == 1 {
      assert Front(fs) == [] && fs[..0] == [];
    } else {
      FieldAt(Front(fs), if i < |fs| - 1 then i else 0);
    }
  }

  predicate AllSeparated(fs: seq<Field>) { forall i :: 0 <= i < |fs| ==> Separated(fs[i].value, fs[i].folds) }

  lemma SameWordsIffAllSeparated(fs: seq<Field>)
    requires LegalFields(fs)
    ensures SameWords(FieldsMeaning(fs), UnfoldedFields(fs)) <==> AllSeparated(fs)
  {
    hide Words, Separated, Field.Legal, Unfolded, FieldsMeaning, UnfoldedFields;
    if fs == [] {
      NothingUnfolded();
      NoFields();
    } else {
      FieldAt(fs, 0);
      forall i | 0 <= i < |fs|
        ensures FieldsMeaning(fs)[i].name == UnfoldedFields(fs)[i].name
        ensures Words(FieldsMeaning(fs)[i].value) == Words(UnfoldedFields(fs)[i].value)
          <==> Separated(fs[i].value, fs[i].folds)
      {
        assert fs[i].Legal();
        FieldAt(fs, i);
        SameWordsIffSeparated(fs[i]);
      }
    }
  }

  predicate NoFolds(fs: seq<Field>) { forall i :: 0 <= i < |fs| ==> fs[i].folds == [] }

  lemma SameHeadersIffNoFolds(fs: seq<Field>)
    ensures FieldsMeaning(fs) == UnfoldedFields(fs) <==> NoFolds(fs)
  {
    hide Unfolded, FieldsMeaning, UnfoldedFields, Field.Meaning;
    if fs == [] {
      NothingUnfolded();
      NoFields();
    } else {
      FieldAt(fs, 0);
      forall i | 0 <= i < |fs|
        ensures FieldsMeaning(fs)[i] == UnfoldedFields(fs)[i] <==> fs[i].folds == []
      {
        FieldAt(fs, i);
        SameValueIffUnfolded(fs[i]);
        MeaningName(fs[i]);
      }
    }
  }

  lemma MeaningName(f: Field)
    ensures f.Meaning().name == f.name
  {
  }

  lemma NothingUnfolded()
    ensures UnfoldedFields([]) == []
  {
  }

  /** For every accepted input: the headers parsed are those of the standard, character by character,
      exactly when no line is folded; and they have the words that the standard gives them, exactly
      when each fold with text behind it comes where the value is empty or ends with a space. */
  lemma AcceptedUnfolds(input: string, l: Layout, major: int, minor: int)
    requires Begins(l, input)
    ensures ParseFrom(Cleared(major, minor), input).verdict.Good?
    ensures ParseFrom(Cleared(major, minor), input).conf.req.headers == UnfoldedFields(l.fields) <==> NoFolds(l.fields)
    ensures SameWords(ParseFrom(Cleared(major, minor), input).conf.req.headers, UnfoldedFields(l.fields))
       <==> AllSeparated(l.fields)
  {
    hide ParseFrom, SameWords, AllSeparated, NoFolds, UnfoldedFields, FieldsMeaning, Words, Number, IsNumber, AllTokens, IsUri;
    AcceptsExactlyLayouts(major, minor, input);
    SameWordsIffAllSeparated(l.fields);
    SameHeadersIffNoFolds(l.fields);
  }

  // ---------------------------------------------------------------------------------
  // An input on which they differ.

  const FOLDED := Field("A", "b", [Fold(" ", "c")])

  lemma FoldedMeans()
    ensures FOLDED.Text() == "A: b\r\n c\r\n" && FOLDED.Meaning() == Header("A", "bc")
    ensures Unfolded(FOLDED.value, FOLDED.folds) == "b c" && FOLDED.Legal()
  {
    var f := Fold(" ", "c");
    assert [f][..0] == [] && Front([f]) == [] && Last([f]) == f;
    assert f.Text() == " c\r\n" && f.Legal() by { NotBlank('c'); }
    assert FoldsText([f]) == "" + " c\r\n" && FoldsMore([f]) == "" + "c";
    assert LegalFolds([f]) && IsToken('A');
  }

  lemma PlainLine()
    ensures AllTokens("G") && IsUri("/") && IsNumber("1")
  {
    assert IsToken('G');
  }

  lemma OneField(f: Field)
    ensures FieldsText([f]) == f.Text() && FieldsMeaning([f]) == [f.Meaning()]
  {
    assert [f][..0] == [];
    hide Field.Text, Field.Meaning;
  }

  /** "A: b", folded, " c": the parser reads the value "bc" where the standard says "b c". */
  lemma FoldExample()
    ensures var o := ParseFrom(Cleared(0, 0), "G / HTTP/1.1\r\nA: b\r\n c\r\n\r\n");
      o.verdict.Good? && o.conf.req.headers == [Header("A", "bc")]
    ensures Unfolded("b", [Fold(" ", "c")]) == "b c"
  {
    hide Run, FieldsText, FieldsMeaning, Field.Text, Field.Meaning, Field.Legal, AllTokens, IsUri, IsNumber, Number, Unfolded;
    var l := Layout("G", "/", "1", "1", [FOLDED]);
    FoldedMeans();
    PlainLine();
    OneField(FOLDED);
    assert l.Legal();
    LayoutParses(l, 0, 0, "");
    assert l.Text() + "" == "G / HTTP/1.1\r\nA: b\r\n c\r\n\r\n";
  }
}
