/** One read of the connection as a function on values: what it makes of the buffer, and what it keeps
    of it for the next read; and what becomes of a request that takes several reads. */
module ConnectionSpec {
  import opened Basics
  import opened RequestSpec
  import opened RequestGrammar
  import opened RequestReads

  const BUFFER_SIZE: nat := 8192
  const TWO64: nat := 0x1_0000_0000_0000_0000

  /** What the connection does after a read: it reads on, answers, refuses the request, fails because a
      length cannot be read, or hands an upload over to other methods. */
  datatype Act = ReadOn | Answer | Refuse | Fail | HandOver

  /** What a connection remembers: the part of the buffer that the next read leaves in place, the length
      of the body it expects, and the version numbers that stay in the request. */
  datatype Conn = Conn(kept: string, expected: nat, major: int, minor: int)

  predicate AllDigits(s: string) { forall i :: 0 <= i < |s| ==> IsDigit(s[i]) }

  /** A number of 64 bits read from a whole text: digits, with or without a sign before them, that do not
      exceed it. A minus sign counts from the top. */
  function Unsigned(s: string): (n: Option<nat>)
    ensures n.Some? ==> n.value < TWO64
  {
    var digits := if s != "" && (s[0] == '+' || s[0] == '-') then s[1..] else s;
    if digits == "" || !AllDigits(digits) then None else
    ValueIsNat(digits);
    var v := Value(digits);
    if v >= TWO64 then None else if s[0] == '-' then Some((TWO64 - v) % TWO64) else Some(v)
  }

  /** The expected length after a good request: that of its first Content-Length header, if it has one. */
  function ContentLength(hs: seq<Header>, before: nat): Option<nat> {
    if hs == [] then Some(before)
    else if hs[0].name == "Content-Length" then Unsigned(hs[0].value)
    else ContentLength(hs[1..], before)
  }

  predicate IsUpload(r: Request, boundary: bool) {
    boundary && (r.uri == "/uploadfiletodb.action" || r.uri == "/uploadfile.action")
  }

  /** What is done with a parsed buffer of `total` characters, whether all of it is kept, and the
      expected length. A body is all there if the buffer ends where the body ends. */
  function Decide(o: Outcome, total: nat, expected: nat, boundary: bool): (Act, nat) {
    match o.verdict
    case Bad => (Refuse, expected)
    case Indeterminate => (ReadOn, expected)
    case Good =>
      match ContentLength(o.conf.req.headers, expected)
      case None => (Fail, expected)
      case Some(n) =>
        if o.conf.req.verb != "POST" then (Answer, n)
        else if IsUpload(o.conf.req, boundary) then (HandOver, n)
        else if total == o.used + n then (Answer, n) else (ReadOn, n)
  }

  /** The buffer is kept while a body is awaited, unless it is full; an answered body drops it; and
      otherwise it stays what it was. */
  function Keep(c: Conn, o: Outcome, total: string, act: Act): string {
    if !o.verdict.Good? || o.conf.req.verb != "POST" || act == Fail || act == HandOver then c.kept
    else if act == Answer || |total| >= BUFFER_SIZE then "" else total
  }

  predicate Fits(c: Conn, chunk: string) { |c.kept| < BUFFER_SIZE && |chunk| <= BUFFER_SIZE - |c.kept| }

  /** One read. */
  function Read(c: Conn, chunk: string, boundary: bool): (r: (Act, Outcome, Conn)) {
    var text := c.kept + chunk;
    var o := ParseFrom(Cleared(c.major, c.minor), text);
    var (act, n) := Decide(o, |text|, c.expected, boundary);
    (act, o, Conn(Keep(c, o, text, act), n, o.conf.req.major, o.conf.req.minor))
  }

  /** All chunks fit, and after each of them the connection reads on. */
  predicate Goes(c: Conn, chunks: seq<string>, boundary: bool)
    decreases |chunks|
  {
    chunks == [] ||
    (Goes(c, Front(chunks), boundary)
      && Fits(After(c, Front(chunks), boundary), Last(chunks))
      && Read(After(c, Front(chunks), boundary), Last(chunks), boundary).0 == ReadOn)
  }

  function After(c: Conn, chunks: seq<string>, boundary: bool): Conn
    decreases |chunks|
  {
    if chunks == [] then c else Read(After(c, Front(chunks), boundary), Last(chunks), boundary).2
  }

  function Joined(chunks: seq<string>): string {
    if chunks == [] then "" else Joined(Front(chunks)) + Last(chunks)
  }

  /** A run with one more read. */
  lemma RunSnoc(c: Conn, chunks: seq<string>, boundary: bool)
    requires chunks != []
    ensures var d := After(c, Front(chunks), boundary);
      && After(c, chunks, boundary) == Read(d, Last(chunks), boundary).2
      && (Goes(c, chunks, boundary) <==>
          (Goes(c, Front(chunks), boundary) && Fits(d, Last(chunks)) && Read(d, Last(chunks), boundary).0 == ReadOn))
      && Joined(chunks) == Joined(Front(chunks)) + Last(chunks)
  {
    hide Read, Front, Last, Fits;
  }

  lemma NoRead(c: Conn, boundary: bool)
    ensures Goes(c, [], boundary) && After(c, [], boundary) == c && Joined([]) == ""
  {
  }

  // ---------------------------------------------------------------------------------
  // A good request whose body is awaited.

  /** A good request that the connection reads a body for, of n characters. */
  predicate Awaits(o: Outcome, expected: nat, boundary: bool, n: nat) {
    && o.verdict.Good? && o.conf.req.verb == "POST" && !IsUpload(o.conf.req, boundary)
    && ContentLength(o.conf.req.headers, expected) == Some(n)
  }

  /** A length that was found once is found again. */
  lemma {:induction false} ContentLengthAgain(hs: seq<Header>, before: nat, n: nat)
    requires ContentLength(hs, before) == Some(n)
    ensures ContentLength(hs, n) == Some(n)
  {
    if hs != [] && hs[0].name != "Content-Length" {
      ContentLengthAgain(hs[1..], before, n);
    }
  }

  /** A read whose buffer begins with the request finds it, and decides by the number of characters. */
  lemma ReadFinds(c: Conn, chunk: string, boundary: bool, head: string, tail: string, n: nat)
    requires c.kept + chunk == head + tail
    requires var o := ParseFrom(Cleared(0, 0), head); Awaits(o, c.expected, boundary, n)
    ensures var o, (act, o', d) := ParseFrom(Cleared(0, 0), head), Read(c, chunk, boundary);
      && o' == o && d.expected == n
      && act == (if |head + tail| == o.used + n then Answer else ReadOn)
      && (act == ReadOn ==> d.kept == if |head + tail| >= BUFFER_SIZE then "" else head + tail)
      && (act == Answer ==> d.kept == "")
  {
    hide ParseFrom, ContentLength;
    StaleVersionForgotten(c.major, c.minor, head);
    ReparseIsResume(Cleared(c.major, c.minor), head, tail);
  }

  /** Before each chunk from the second on, the body is not complete and the buffer is not full. */
  predicate StillOpen(head: string, more: seq<string>, end: nat) {
    forall i :: 0 <= i < |more| ==> |head + Joined(more[..i])| != end && |head + Joined(more[..i])| < BUFFER_SIZE
  }

  /** The buffer once head and more have been read. */
  function Buffered(head: string, more: seq<string>): string { head + Joined(more) }

  lemma BufferedSnoc(head: string, more: seq<string>)
    requires more != []
    ensures Buffered(head, more) == Buffered(head, Front(more)) + Last(more)
  {
  }

  lemma StillOpenFront(head: string, more: seq<string>, end: nat)
    requires more != [] && StillOpen(head, more, end)
    ensures StillOpen(head, Front(more), end)
    ensures |Buffered(head, Front(more))| != end && |Buffered(head, Front(more))| < BUFFER_SIZE
  {
    forall i | 0 <= i < |more| - 1 ensures Front(more)[..i] == more[..i] {}
    assert Front(more) == Front(more);
    hide Joined;
  }

  /** All chunks after the head fit into what is left of the buffer. */
  predicate AllFit(head: string, more: seq<string>) { |head| + |Joined(more)| <= BUFFER_SIZE }

  /** While neither the end of the body is reached nor the buffer full, every read is followed by another,
      and everything is kept; a full buffer is dropped. */
  lemma {:induction false} KeepsWaiting(c: Conn, head: string, more: seq<string>, boundary: bool, n: nat)
    requires c.kept == "" && AllFit(head, more)
    requires var o := ParseFrom(Cleared(0, 0), head); Awaits(o, c.expected, boundary, n)
    requires var end := ParseFrom(Cleared(0, 0), head).used + n;
      StillOpen(head, more, end) && |Buffered(head, more)| != end
    ensures var d := After(c, [head] + more, boundary); var all := Buffered(head, more);
      Goes(c, [head] + more, boundary) && d.expected == n && d.kept == if |all| >= BUFFER_SIZE then "" else all
    decreases |more|
  {
    hide ParseFrom, Awaits, Read, Joined, Goes, After, StillOpen, Buffered, AllFit;
    var o := ParseFrom(Cleared(0, 0), head);
    var end := o.used + n;
    var chunks := [head] + more;
    RunSnoc(c, chunks, boundary);
    HeadFits(head, more);
    if more == [] {
      NoRead(c, boundary);
      assert Front(chunks) == [] && Last(chunks) == head;
      assert c.kept + head == head + "" == Buffered(head, more);
      ReadFinds(c, head, boundary, head, "", n);
    } else {
      var front, d := Front(more), After(c, Front(chunks), boundary);
      assert Front(chunks) == [head] + front && Last(chunks) == Last(more);
      StillOpenFront(head, more, end);
      AllFitFront(head, more);
      KeepsWaiting(c, head, front, boundary, n);
      AwaitsAgain(o, c.expected, boundary, n);
      Behind(head, more);
      ReadFinds(d, Last(more), boundary, head, Joined(front) + Last(more), n);
    }
  }

  lemma NothingJoined()
    ensures Joined([]) == ""
  {
  }

  lemma HeadFits(head: string, more: seq<string>)
    requires AllFit(head, more)
    ensures |head| <= BUFFER_SIZE && |Buffered(head, more)| <= BUFFER_SIZE && (more == [] ==> Buffered(head, more) == head)
    ensures more != [] ==> |Buffered(head, Front(more))| + |Last(more)| == |Buffered(head, more)|
  {
    if more == [] { NothingJoined(); } else { BufferedSnoc(head, more); }
    hide Joined;
  }

  lemma Behind(head: string, more: seq<string>)
    requires more != []
    ensures Buffered(head, Front(more)) + Last(more) == head + (Joined(Front(more)) + Last(more)) == Buffered(head, more)
  {
    BufferedSnoc(head, more);
    hide Joined;
  }

  lemma AwaitsAgain(o: Outcome, expected: nat, boundary: bool, n: nat)
    requires Awaits(o, expected, boundary, n)
    ensures Awaits(o, n, boundary, n)
  {
    ContentLengthAgain(o.conf.req.headers, expected, n);
  }

  /** The next read of a request whose body is awaited: as long as the buffer is not full it finds the
      request again, and the body is complete exactly if the buffer then ends where the body ends. Once
      the buffer is full, the read is parsed alone. */
  lemma NextRead(c: Conn, head: string, more: seq<string>, chunk: string, boundary: bool, n: nat)
    requires c.kept == "" && AllFit(head, more)
    requires var o := ParseFrom(Cleared(0, 0), head); Awaits(o, c.expected, boundary, n)
    requires var end := ParseFrom(Cleared(0, 0), head).used + n;
      StillOpen(head, more, end) && |Buffered(head, more)| != end
    ensures var o := ParseFrom(Cleared(0, 0), head);
      var d, all := After(c, [head] + more, boundary), Buffered(head, more);
      var (act, o', d') := Read(d, chunk, boundary);
      && (|all| < BUFFER_SIZE ==> o' == o && act == if |all + chunk| == o.used + n then Answer else ReadOn)
      && (|all| >= BUFFER_SIZE ==>
          var alone := ParseFrom(Cleared(0, 0), chunk); o'.verdict == alone.verdict && o'.used == alone.used)
      && (o' == o <==> |all| < BUFFER_SIZE || ParseFrom(Cleared(0, 0), chunk) == o)
  {
    hide ParseFrom, Awaits, Joined;
    var o := ParseFrom(Cleared(0, 0), head);
    KeepsWaiting(c, head, more, boundary, n);
    hide After, Goes;
    var d, all := After(c, [head] + more, boundary), Buffered(head, more);
    if |all| < BUFFER_SIZE {
      hide Read;
      AwaitsAgain(o, c.expected, boundary, n);
      assert d.kept + chunk == head + (Joined(more) + chunk);
      ReadFinds(d, chunk, boundary, head, Joined(more) + chunk, n);
    } else {
      hide Read;
      ReadAlone(d, chunk, boundary);
      GoodHead(o, c.expected, boundary, n);
    }
  }

  /** With nothing kept, what is read is parsed alone. */
  lemma ReadAlone(d: Conn, chunk: string, boundary: bool)
    requires d.kept == ""
    ensures var o, alone := Read(d, chunk, boundary).1, ParseFrom(Cleared(0, 0), chunk);
      o.verdict == alone.verdict && o.used == alone.used && (alone.verdict.Good? ==> o == alone)
  {
    hide ParseFrom, Decide, Keep;
    assert d.kept + chunk == chunk;
    StaleVersionForgotten(d.major, d.minor, chunk);
  }

  lemma GoodHead(o: Outcome, expected: nat, boundary: bool, n: nat)
    requires Awaits(o, expected, boundary, n)
    ensures o.verdict.Good?
  {
  }

  /** As long as the buffer is not full, the connection goes on reading exactly until the buffer ends
      where the body ends: a body that ends between two reads is never answered, nor is one that does
      not fit into the buffer. */
  lemma {:induction false} GoesUntilBodyEnds(c: Conn, head: string, more: seq<string>, boundary: bool, n: nat)
    requires c.kept == "" && AllFit(head, more)
    requires var o := ParseFrom(Cleared(0, 0), head); Awaits(o, c.expected, boundary, n)
    requires forall i :: 0 <= i < |more| ==> |Buffered(head, more[..i])| < BUFFER_SIZE
    ensures var end := ParseFrom(Cleared(0, 0), head).used + n;
      Goes(c, [head] + more, boundary) <==> forall i :: 0 <= i <= |more| ==> |Buffered(head, more[..i])| != end
    decreases |more|
  {
    hide ParseFrom, Awaits, Read, Joined, Buffered;
    var o := ParseFrom(Cleared(0, 0), head);
    var end := o.used + n;
    assert more[..|more|] == more;
    if forall i :: 0 <= i <= |more| ==> |Buffered(head, more[..i])| != end {
      OpenAsBuffered(head, more, end);
      KeepsWaiting(c, head, more, boundary, n);
    } else if more == [] {
      FirstRead(c, head, boundary, n);
    } else {
      var front := Front(more);
      forall i | 0 <= i <= |front| ensures front[..i] == more[..i] {}
      AllFitFront(head, more);
      GoesUntilBodyEnds(c, head, front, boundary, n);
      assert Front([head] + more) == [head] + front && Last([head] + more) == Last(more);
      if Goes(c, [head] + front, boundary) {
        assert front[..|front|] == front;
        OpenAsBuffered(head, front, end);
        BufferedSnoc(head, more);
        NextRead(c, head, front, Last(more), boundary, n);
      }
    }
  }

  lemma OpenAsBuffered(head: string, more: seq<string>, end: nat)
    requires forall i :: 0 <= i < |more| ==> |Buffered(head, more[..i])| < BUFFER_SIZE
    requires forall i :: 0 <= i < |more| ==> |Buffered(head, more[..i])| != end
    ensures StillOpen(head, more, end)
  {
    hide Joined;
    forall i | 0 <= i < |more|
      ensures |head + Joined(more[..i])| != end && |head + Joined(more[..i])| < BUFFER_SIZE
    {
      assert Buffered(head, more[..i]) == head + Joined(more[..i]);
    }
  }

  lemma AllFitFront(head: string, more: seq<string>)
    requires more != [] && AllFit(head, more)
    ensures AllFit(head, Front(more))
  {
  }

  lemma FirstRead(c: Conn, head: string, boundary: bool, n: nat)
    requires c.kept == ""
    requires var o := ParseFrom(Cleared(0, 0), head); Awaits(o, c.expected, boundary, n)
    requires |Buffered(head, [])| == ParseFrom(Cleared(0, 0), head).used + n
    ensures !Goes(c, [head] + [], boundary)
  {
    hide ParseFrom, Awaits, Read;
    assert [head] + [] == [head] && Front([head]) == [] && Last([head]) == head;
    assert c.kept + head == head + "" && head + Joined([]) == head;
    ReadFinds(c, head, boundary, head, "", n);
  }

  // ---------------------------------------------------------------------------------
  // A request whose head takes several reads.

  /** While the connection reads on, what it keeps is the end of what it has read, and is empty or begins
      with a good request. */
  lemma {:induction false} KeptIsTail(c: Conn, chunks: seq<string>, boundary: bool) returns (dropped: string)
    requires c.kept == "" && Goes(c, chunks, boundary)
    ensures var kept := After(c, chunks, boundary).kept;
      Joined(chunks) == dropped + kept && (kept != "" ==> ParseFrom(Cleared(0, 0), kept).verdict.Good?)
    decreases |chunks|
  {
    hide ParseFrom, Read, Goes, After, Joined;
    if chunks == [] {
      NoRead(c, boundary);
      dropped := "";
    } else {
      RunSnoc(c, chunks, boundary);
      var d := After(c, Front(chunks), boundary);
      dropped := KeptIsTail(c, Front(chunks), boundary);
      KeptStep(d, Last(chunks), boundary);
      assert (dropped + d.kept) + Last(chunks) == dropped + (d.kept + Last(chunks));
      if After(c, chunks, boundary).kept == "" {
        dropped := Joined(chunks);
      }
    }
  }

  lemma KeptStep(d: Conn, chunk: string, boundary: bool)
    requires d.kept != "" ==> ParseFrom(Cleared(0, 0), d.kept).verdict.Good?
    requires Read(d, chunk, boundary).0 == ReadOn
    ensures var kept := Read(d, chunk, boundary).2.kept;
      kept == "" || (kept == d.kept + chunk && ParseFrom(Cleared(0, 0), kept).verdict.Good?)
  {
    hide ParseFrom, ContentLength;
    var text := d.kept + chunk;
    StaleVersionForgotten(d.major, d.minor, text);
    ReparseIsResume(Cleared(0, 0), d.kept, chunk);
  }

  lemma {:induction false} NothingRead(c: Conn, chunks: seq<string>, boundary: bool)
    requires c.kept == "" && Joined(chunks) == ""
    ensures Goes(c, chunks, boundary) && After(c, chunks, boundary).kept == ""
    decreases |chunks|
  {
    hide ParseFrom, ContentLength, Goes, After, Joined;
    if chunks == [] {
      NoRead(c, boundary);
    } else {
      RunSnoc(c, chunks, boundary);
      NothingRead(c, Front(chunks), boundary);
      var d := After(c, Front(chunks), boundary);
      assert Last(chunks) == "" && d.kept + "" == "";
      EmptyIsIndeterminate(Cleared(d.major, d.minor));
    }
  }

  lemma EmptyIsIndeterminate(r: Request)
    ensures ParseFrom(r, "").verdict.Indeterminate?
  {
  }

  /** In whatever pieces it comes: a good request whose last missing character arrives with the last of
      several reads is found by that read exactly if the reads before it brought nothing. */
  lemma OneReadOrNone(c: Conn, chunks: seq<string>, last: string, boundary: bool)
    requires c.kept == ""
    requires ParseFrom(Cleared(0, 0), Joined(chunks)).verdict.Indeterminate?
    requires ParseFrom(Cleared(0, 0), Joined(chunks) + last).verdict.Good?
    ensures var whole := ParseFrom(Cleared(0, 0), Joined(chunks) + last);
      Goes(c, chunks, boundary)
        && (var o := Read(After(c, chunks, boundary), last, boundary).1;
            o.verdict.Good? && o.conf.req == whole.conf.req)
      <==> Joined(chunks) == ""
  {
    hide ParseFrom, Joined, Goes, After, ContentLength;
    var all := Joined(chunks);
    if all == "" {
      NothingRead(c, chunks, boundary);
      var d := After(c, chunks, boundary);
      assert d.kept + last == last && all + last == last;
      StaleVersionForgotten(d.major, d.minor, last);
    } else if Goes(c, chunks, boundary) {
      var dropped := KeptIsTail(c, chunks, boundary);
      var d := After(c, chunks, boundary);
      var b := d.kept + last;
      assert dropped == "" ==> all == d.kept;
      ReparseIsResume(Cleared(0, 0), dropped, d.kept);
      if dropped != "" {
        assert all + last == dropped + b;
        StaleVersionForgotten(d.major, d.minor, b);
        CutRequestLost(dropped, b, 0, 0);
      }
    }
  }

  // ---------------------------------------------------------------------------------
  // A request that does not fit.

  function Pad(k: nat): (s: string)
    ensures |s| == k && NoCtl(s)
  {
    seq(k, _ => 'a')
  }

  /** A post of one character whose head takes the whole buffer. */
  const LONG := Layout("POST", "/", "1", "1", [Field("Content-Length", "1", []), Field("A", Pad(8149), [])])

  lemma OneLine(f: Field)
    requires f.folds == [] && f.name != "" && AllTokens(f.name) && NoCtl(f.value)
    ensures f.Legal() && |f.Text()| == |f.name| + |f.value| + 4 && f.Meaning() == Header(f.name, f.value)
  {
    hide AllTokens, NoCtl;
    assert FoldsText([]) == "" && FoldsMore([]) == "" && f.value + "" == f.value;
  }

  lemma TwoFields(f: Field, g: Field)
    ensures FieldsText([f, g]) == f.Text() + g.Text() && FieldsMeaning([f, g]) == [f.Meaning(), g.Meaning()]
  {
    hide Field.Text, Field.Meaning;
    var fs := [f, g];
    assert fs[..1] == [f] && [f][..0] == [];
    assert FieldsText(fs) == FieldsText(fs[..1]) + g.Text() && FieldsMeaning(fs) == FieldsMeaning(fs[..1]) + [g.Meaning()];
    assert FieldsText([f]) == FieldsText([]) + f.Text() && FieldsMeaning([f]) == FieldsMeaning([]) + [f.Meaning()];
  }

  lemma PlainText()
    ensures AllTokens("POST") && AllTokens("A") && NoCtl("1") && IsUri("/") && IsNumber("1")
  {
  }

  lemma PlainName()
    ensures AllTokens("Content-Length")
  {
    var s := "Content-Length";
    forall i | 0 <= i < |s| ensures IsToken(s[i]) {
      assert s[i] == '-' || 'A' <= s[i] <= 'Z' || 'a' <= s[i] <= 'z';
      LetterIsToken(s[i]);
    }
    hide IsToken;
  }

  lemma LetterIsToken(c: char)
    requires c == '-' || 'A' <= c <= 'Z' || 'a' <= c <= 'z'
    ensures IsToken(c)
  {
  }

  lemma PlainNumber()
    ensures Unsigned("1") == Some(1)
  {
    assert "1"[..0] == "" && AllDigits("1");
    assert Value("1") == Value("1"[..0]) * 10 + DigitValue('1');
  }

  lemma FirstLength(h: Header, g: Header, before: nat)
    requires h.name == "Content-Length"
    ensures ContentLength([h, g], before) == Unsigned(h.value)
  {
    hide Unsigned;
  }

  lemma LongFits()
    ensures LONG.Legal() && |LONG.Text()| == BUFFER_SIZE
    ensures LONG.Meaning().verb == "POST" && LONG.Meaning().uri == "/"
    ensures ContentLength(LONG.Meaning().headers, 0) == Some(1)
  {
    hide Pad, FieldsText, FieldsMeaning, Field.Text, Field.Legal, Field.Meaning, AllTokens, NoCtl, IsUri, IsNumber, Number, Unsigned;
    PlainText();
    PlainName();
    PlainNumber();
    var f, g := LONG.fields[0], LONG.fields[1];
    OneLine(f);
    OneLine(g);
    TwoFields(f, g);
    FirstLength(f.Meaning(), g.Meaning(), 0);
    assert LONG.fields == [f, g];
    LongText(LONG, f, g);
  }

  lemma LongText(l: Layout, f: Field, g: Field)
    requires l.fields == [f, g] && FieldsText([f, g]) == f.Text() + g.Text()
    requires l.verb == "POST" && l.uri == "/" && l.major == "1" && l.minor == "1"
    ensures |l.Text()| == 19 + |f.Text()| + |g.Text()|
  {
    hide FieldsText, Field.Text;
    assert FrontText("POST", "/") == "POST / HTTP/";
  }

  /** The read after it is parsed alone: a blank, say, is refused. */
  lemma FullBufferExample(major: int, minor: int)
    ensures var c := Conn("", 0, major, minor);
      Goes(c, [LONG.Text()], false) && Read(After(c, [LONG.Text()], false), " ", false).0 == Refuse
  {
    hide ParseFrom, Layout.Text, Layout.Legal, Layout.Meaning, ContentLength, Read, Joined;
    var c, head := Conn("", 0, major, minor), LONG.Text();
    LongFits();
    LayoutParses(LONG, 0, 0, "");
    assert head + "" == head && [head] + [] == [head];
    NothingJoined();
    assert Buffered(head, []) == head;
    KeepsWaiting(c, head, [], false, 1);
    var d := After(c, [head], false);
    SpaceFirstIsBad(Cleared(d.major, d.minor), " ");
    ReadBad(d, " ");
  }

  /** A post of one character with a short head. */
  const SHORT := Layout("POST", "/", "1", "1", [Field("Content-Length", "1", [])])

  lemma OneField(f: Field)
    ensures FieldsMeaning([f]) == [f.Meaning()]
  {
    assert Front([f]) == [] && Last([f]) == f;
    hide Field.Meaning;
  }

  lemma OnlyLength(h: Header, before: nat)
    requires h.name == "Content-Length"
    ensures ContentLength([h], before) == Unsigned(h.value)
  {
    hide Unsigned;
  }

  lemma ShortIsLegal()
    ensures SHORT.Legal() && SHORT.Meaning().verb == "POST" && SHORT.Meaning().uri == "/"
    ensures ContentLength(SHORT.Meaning().headers, 0) == Some(1)
  {
    hide FieldsText, FieldsMeaning, Field.Text, Field.Legal, Field.Meaning, AllTokens, NoCtl, IsUri, IsNumber, Number, Unsigned;
    PlainText();
    PlainName();
    PlainNumber();
    var f := SHORT.fields[0];
    OneLine(f);
    OneField(f);
    OnlyLength(f.Meaning(), 0);
  }

  /** With its one character it is answered; with two characters at once the connection reads on. */
  lemma OvertakenExample(major: int, minor: int)
    ensures var c := Conn("", 0, major, minor);
      && Read(c, SHORT.Text() + "a", false).0 == Answer
      && Read(c, SHORT.Text() + "ab", false).0 == ReadOn
  {
    hide ParseFrom, Layout.Text, Layout.Legal, Layout.Meaning, ContentLength, Read;
    var c, head := Conn("", 0, major, minor), SHORT.Text();
    ShortIsLegal();
    LayoutParses(SHORT, 0, 0, "");
    assert head + "" == head;
    assert c.kept + (head + "a") == head + "a" && c.kept + (head + "ab") == head + "ab";
    ReadFinds(c, head + "a", false, head, "a", 1);
    ReadFinds(c, head + "ab", false, head, "ab", 1);
  }

  lemma ReadBad(d: Conn, chunk: string)
    requires d.kept == "" && ParseFrom(Cleared(d.major, d.minor), chunk).verdict.Bad?
    ensures Read(d, chunk, false).0 == Refuse
  {
    hide ParseFrom;
    assert d.kept + chunk == chunk;
  }
}
