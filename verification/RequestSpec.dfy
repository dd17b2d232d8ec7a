/** The request-header state machine as a step function on values, and the printed form of a
    request. A byte is a char; one with its top bit set, negative as a C char, is 128 or more. */
module RequestSpec {
  import opened Basics

  datatype State =
    | MethodStart | Method | Uri
    | HttpVersionH | HttpVersionT1 | HttpVersionT2 | HttpVersionP | HttpVersionSlash
    | VersionMajorStart | VersionMajor | VersionMinorStart | VersionMinor
    | ExpectingNewline1 | HeaderLineStart | HeaderLws | HeaderName
    | SpaceBeforeHeaderValue | HeaderValue | ExpectingNewline2 | ExpectingNewline3

  datatype Verdict = Good | Bad | Indeterminate

  datatype Header = Header(name: string, value: string)

  datatype Request = Request(verb: string, uri: string, major: int, minor: int, headers: seq<Header>)

  predicate IsChar(c: char) { c as int <= 127 }

  predicate IsCtl(c: char) { c as int <= 31 || c as int == 127 }

  predicate IsTspecial(c: char) { c in "()<>@,;:\\\"/[]?={} \t" }

  predicate IsDigit(c: char) { '0' <= c <= '9' }

  /** A character of a method or a header name. */
  predicate IsToken(c: char) { IsChar(c) && !IsCtl(c) && !IsTspecial(c) }

  /** The value that a C int keeps of x. */
  function Int32(x: int): (y: int)
    ensures -INT_MAX - 1 <= y <= INT_MAX
    ensures -INT_MAX - 1 <= x <= INT_MAX ==> y == x
  {
    (x + 0x8000_0000) % 0x1_0000_0000 - 0x8000_0000
  }

  function DigitValue(c: char): int { c as int - '0' as int }

  /** A version number after one more digit. */
  function NextVersion(v: int, c: char): int { Int32(v * 10 + DigitValue(c)) }

  /** The header under construction, with one more character. */
  function AddToName(r: Request, c: char): Request
    requires r.headers != []
  {
    var k := |r.headers| - 1;
    r.(headers := r.headers[k := r.headers[k].(name := r.headers[k].name + [c])])
  }

  function AddToValue(r: Request, c: char): Request
    requires r.headers != []
  {
    var k := |r.headers| - 1;
    r.(headers := r.headers[k := r.headers[k].(value := r.headers[k].value + [c])])
  }

  /** Where the parser stands: its state, and the request as filled in so far. */
  datatype Conf = Conf(state: State, req: Request) {
    /** A state that extends the last header is only reached when there is one. */
    predicate HasHeader() {
      state in {HeaderLws, HeaderName, SpaceBeforeHeaderValue, HeaderValue} ==> req.headers != []
    }

    function To(state': State): Conf { Conf(state', req) }
  }

  /** One input character: the verdict and the next configuration. */
  function Step(c: Conf, input: char): (r: (Verdict, Conf))
    requires c.HasHeader()
    ensures r.1.HasHeader()
  {
    var reject := (Bad, c);
    match c.state
    case MethodStart =>
      if !IsToken(input) then reject
      else (Indeterminate, Conf(Method, c.req.(verb := c.req.verb + [input])))
    case Method =>
      if input == ' ' then (Indeterminate, c.To(Uri))
      else if !IsToken(input) then reject
      else (Indeterminate, Conf(Method, c.req.(verb := c.req.verb + [input])))
    case Uri =>
      if input == ' ' then (Indeterminate, c.To(HttpVersionH))
      else if IsCtl(input) then reject
      else (Indeterminate, Conf(Uri, c.req.(uri := c.req.uri + [input])))
    case HttpVersionH => if input == 'H' then (Indeterminate, c.To(HttpVersionT1)) else reject
    case HttpVersionT1 => if input == 'T' then (Indeterminate, c.To(HttpVersionT2)) else reject
    case HttpVersionT2 => if input == 'T' then (Indeterminate, c.To(HttpVersionP)) else reject
    case HttpVersionP => if input == 'P' then (Indeterminate, c.To(HttpVersionSlash)) else reject
    case HttpVersionSlash =>
      if input == '/' then (Indeterminate, Conf(VersionMajorStart, c.req.(major := 0, minor := 0))) else reject
    case VersionMajorStart =>
      if IsDigit(input) then (Indeterminate, Conf(VersionMajor, c.req.(major := NextVersion(c.req.major, input))))
      else reject
    case VersionMajor =>
      if input == '.' then (Indeterminate, c.To(VersionMinorStart))
      else if IsDigit(input) then (Indeterminate, Conf(VersionMajor, c.req.(major := NextVersion(c.req.major, input))))
      else reject
    case VersionMinorStart =>
      if IsDigit(input) then (Indeterminate, Conf(VersionMinor, c.req.(minor := NextVersion(c.req.minor, input))))
      else reject
    case VersionMinor =>
      if input == '\r' then (Indeterminate, c.To(ExpectingNewline1))
      else if IsDigit(input) then (Indeterminate, Conf(VersionMinor, c.req.(minor := NextVersion(c.req.minor, input))))
      else reject
    case ExpectingNewline1 => if input == '\n' then (Indeterminate, c.To(HeaderLineStart)) else reject
    case HeaderLineStart =>
      if input == '\r' then (Indeterminate, c.To(ExpectingNewline3))
      else if c.req.headers != [] && (input == ' ' || input == '\t') then (Indeterminate, c.To(HeaderLws))
      else if !IsToken(input) then reject
      else (Indeterminate, Conf(HeaderName, c.req.(headers := c.req.headers + [Header([input], "")])))
    case HeaderLws =>
      if input == '\r' then (Indeterminate, c.To(ExpectingNewline2))
      else if input == ' ' || input == '\t' then (Indeterminate, c)
      else if IsCtl(input) then reject
      else (Indeterminate, Conf(HeaderValue, AddToValue(c.req, input)))
    case HeaderName =>
      if input == ':' then (Indeterminate, c.To(SpaceBeforeHeaderValue))
      else if !IsToken(input) then reject
      else (Indeterminate, Conf(HeaderName, AddToName(c.req, input)))
    case SpaceBeforeHeaderValue => if input == ' ' then (Indeterminate, c.To(HeaderValue)) else reject
    case HeaderValue =>
      if input == '\r' then (Indeterminate, c.To(ExpectingNewline2))
      else if IsCtl(input) then reject
      else (Indeterminate, Conf(HeaderValue, AddToValue(c.req, input)))
    case ExpectingNewline2 => if input == '\n' then (Indeterminate, c.To(HeaderLineStart)) else reject
    case ExpectingNewline3 => (if input == '\n' then Good else Bad, c)
  }

  /** How a run over an input ends, and how many characters it took. */
  datatype Outcome = Outcome(verdict: Verdict, conf: Conf, used: nat)

  function Run(c: Conf, input: string): (o: Outcome)
    requires c.HasHeader()
    ensures o.conf.HasHeader() && o.used <= |input|
    ensures o.verdict.Indeterminate? ==> o.used == |input|
    decreases |input|
  {
    if input == "" then Outcome(Indeterminate, c, 0) else
    var (verdict, next) := Step(c, input[0]);
    if !verdict.Indeterminate? then Outcome(verdict, next, 1) else
    var o := Run(next, input[1..]);
    o.(used := o.used + 1)
  }

  /** What `parse` does: it resets the state but not the request. */
  function ParseFrom(r: Request, input: string): Outcome { Run(Conf(MethodStart, r), input) }

  // ---------------------------------------------------------------------------------
  // Re-parsing and resuming.

  /** Running over a and then b is running over a + b. */
  lemma {:induction false} RunAppend(c: Conf, a: string, b: string)
    requires c.HasHeader()
    ensures !Run(c, a).verdict.Indeterminate? ==> Run(c, a + b) == Run(c, a)
    ensures Run(c, a).verdict.Indeterminate? ==>
      var o := Run(Run(c, a).conf, b); Run(c, a + b) == o.(used := |a| + o.used)
    decreases |a|
  {
    hide Step;
    if a == "" {
      assert a + b == b;
    } else {
      assert (a + b)[1..] == a[1..] + b;
      var (verdict, next) := Step(c, a[0]);
      if verdict.Indeterminate? {
        RunAppend(next, a[1..], b);
      }
    }
  }

  /** A verdict and its end never change when more input arrives; before a verdict, parsing the
      longer buffer from the start is the same as resuming behind the shorter one. */
  lemma ReparseIsResume(r: Request, a: string, b: string)
    ensures var first := ParseFrom(r, a);
      if first.verdict.Indeterminate? then
        var rest := Run(first.conf, b); ParseFrom(r, a + b) == rest.(used := |a| + rest.used)
      else ParseFrom(r, a + b) == first
  {
    RunAppend(Conf(MethodStart, r), a, b);
  }

  /** The request the connection hands to `parse`: cleared, but with the version numbers of
      an earlier try still in it. */
  function Cleared(major: int, minor: int): Request { Request("", "", major, minor, []) }

  predicate BeforeVersion(st: State) {
    st in {MethodStart, Method, Uri, HttpVersionH, HttpVersionT1, HttpVersionT2, HttpVersionP, HttpVersionSlash}
  }

  /** Equal but for version numbers that the parser has yet to reset. */
  predicate SameButVersion(c: Conf, d: Conf) {
    && c.state == d.state
    && (if BeforeVersion(c.state) then c.req.(major := 0, minor := 0) == d.req.(major := 0, minor := 0)
        else c.req == d.req)
  }

  lemma SameStep(c: Conf, d: Conf, input: char)
    requires c.HasHeader() && d.HasHeader() && SameButVersion(c, d)
    ensures Step(c, input).0 == Step(d, input).0
    ensures SameButVersion(Step(c, input).1, Step(d, input).1)
    ensures Step(c, input).0.Good? ==> Step(c, input).1 == Step(d, input).1
  {
    hide IsToken, IsCtl, IsDigit, NextVersion;
  }

  lemma {:induction false} SameRun(c: Conf, d: Conf, input: string)
    requires c.HasHeader() && d.HasHeader() && SameButVersion(c, d)
    ensures Run(c, input).verdict == Run(d, input).verdict && Run(c, input).used == Run(d, input).used
    ensures Run(c, input).verdict.Good? ==> Run(c, input) == Run(d, input)
    decreases |input|
  {
    if input != "" {
      SameStep(c, d, input[0]);
      if Step(c, input[0]).0.Indeterminate? {
        hide Step, SameButVersion;
        SameRun(Step(c, input[0]).1, Step(d, input[0]).1, input[1..]);
      }
    }
  }

  /** Version numbers left over in the request make no difference to a parse. */
  lemma StaleVersionForgotten(major: int, minor: int, input: string)
    ensures var o, p := ParseFrom(Cleared(major, minor), input), ParseFrom(Cleared(0, 0), input);
      o.verdict == p.verdict && o.used == p.used && (o.verdict.Good? ==> o == p)
  {
    SameRun(Conf(MethodStart, Cleared(major, minor)), Conf(MethodStart, Cleared(0, 0)), input);
  }

  // ---------------------------------------------------------------------------------
  // Where a good request ends.

  /** The blank line CR LF CR LF ends at place i of s. */
  predicate BlankLineEndsAt(s: string, i: int) {
    4 <= i <= |s| && s[i - 4] == '\r' && s[i - 3] == '\n' && s[i - 2] == '\r' && s[i - 1] == '\n'
  }

  predicate EndsCr(s: string) { 1 <= |s| && s[|s| - 1] == '\r' }

  predicate EndsCrLf(s: string) { 2 <= |s| && s[|s| - 2] == '\r' && s[|s| - 1] == '\n' }

  predicate EndsCrLfCr(s: string) { EndsCr(s) && EndsCrLf(s[..|s| - 1]) }

  predicate NoNul(s: string) { forall i :: 0 <= i < |s| ==> s[i] != '\0' }

  /** What the state says about the characters p consumed so far. */
  ghost predicate Tracks(st: State, p: string) {
    && (forall i :: !BlankLineEndsAt(p, i)) && NoNul(p)
    && (EndsCr(p) <==> st in {ExpectingNewline1, ExpectingNewline2, ExpectingNewline3})
    && (EndsCrLf(p) <==> st == HeaderLineStart)
    && (EndsCrLfCr(p) <==> st == ExpectingNewline3)
  }

  lemma EndsSnoc(p: string, c: char)
    ensures EndsCr(p + [c]) <==> c == '\r'
    ensures EndsCrLf(p + [c]) <==> c == '\n' && EndsCr(p)
    ensures EndsCrLfCr(p + [c]) <==> c == '\r' && EndsCrLf(p)
    ensures BlankLineEndsAt(p + [c], |p| + 1) <==> c == '\n' && EndsCrLfCr(p)
    ensures NoNul(p + [c]) <==> NoNul(p) && c != '\0'
  {
    var q := p + [c];
    assert q[..|q| - 1] == p;
    if NoNul(q) {
      assert q[|p|] == c;
      forall i | 0 <= i < |p| ensures p[i] != '\0' { assert q[i] == p[i]; }
    }
  }

  lemma EarlierBlankLine(p: string, q: string, i: int)
    requires i <= |p|
    ensures BlankLineEndsAt(p + q, i) <==> BlankLineEndsAt(p, i)
  {
  }

  predicate AwaitsNewline(st: State) {
    st == ExpectingNewline1 || st == ExpectingNewline2 || st == ExpectingNewline3
  }

  /** The characters the states let pass, as far as line ends and NUL are concerned. */
  lemma StepLines(c: Conf, input: char)
    requires c.HasHeader() && !Step(c, input).0.Bad?
    ensures input != '\0'
    ensures input == '\n' <==> AwaitsNewline(c.state)
    ensures Step(c, input).0.Good? <==> c.state == ExpectingNewline3
    ensures Step(c, input).0.Indeterminate? ==>
      var next := Step(c, input).1.state;
      && (input == '\r' <==> AwaitsNewline(next))
      && (next == HeaderLineStart <==> c.state == ExpectingNewline1 || c.state == ExpectingNewline2)
      && (next == ExpectingNewline3 <==> c.state == HeaderLineStart && input == '\r')
  {
    hide NextVersion, AddToName, AddToValue;
  }

  lemma TracksStep(c: Conf, p: string, input: char)
    requires c.HasHeader() && Tracks(c.state, p) && !Step(c, input).0.Bad?
    ensures NoNul(p + [input])
    ensures forall i :: i <= |p| ==> !BlankLineEndsAt(p + [input], i)
    ensures Step(c, input).0.Indeterminate? ==> Tracks(Step(c, input).1.state, p + [input])
    ensures Step(c, input).0.Good? ==> BlankLineEndsAt(p + [input], |p| + 1)
  {
    StepLines(c, input);
    EndsSnoc(p, input);
    hide Step, EndsCr, EndsCrLf, EndsCrLfCr, NoNul;
    forall i | i <= |p| ensures !BlankLineEndsAt(p + [input], i) { EarlierBlankLine(p, [input], i); }
  }

  /** p is the whole of a good request: it ends in the first blank line and holds no NUL. */
  ghost predicate EndsInFirstBlankLine(p: string) {
    BlankLineEndsAt(p, |p|) && NoNul(p) && forall i :: i < |p| ==> !BlankLineEndsAt(p, i)
  }

  lemma {:induction false} GoodEndsAtBlankLine(c: Conf, p: string, input: string)
    requires c.HasHeader() && Tracks(c.state, p) && Run(c, input).verdict.Good?
    ensures EndsInFirstBlankLine(p + input[..Run(c, input).used])
    decreases |input|
  {
    hide Tracks, BlankLineEndsAt, NoNul;
    var n := Run(c, input).used;
    var q := p + [input[0]];
    TracksStep(c, p, input[0]);
    assert p + input[..n] == q + input[1..][..n - 1];
    if Step(c, input[0]).0.Indeterminate? {
      GoodEndsAtBlankLine(Step(c, input[0]).1, q, input[1..]);
    } else {
      assert input[1..][..0] == "" && q + "" == q;
    }
    hide Step;
  }

  /** A good request ends just behind the first blank line of the buffer, with no NUL before it. */
  lemma GoodEndsAtFirstBlankLine(r: Request, input: string)
    requires ParseFrom(r, input).verdict.Good?
    ensures var n := ParseFrom(r, input).used;
      && BlankLineEndsAt(input, n)
      && (forall i :: i < n ==> !BlankLineEndsAt(input, i))
      && (forall i :: 0 <= i < n ==> input[i] != '\0')
  {
    var n := ParseFrom(r, input).used;
    GoodEndsAtBlankLine(Conf(MethodStart, r), "", input);
    var s := input[..n];
    assert "" + s == s && s + input[n..] == input;
    forall i | i <= n ensures BlankLineEndsAt(input, i) <==> BlankLineEndsAt(s, i) {
      EarlierBlankLine(s, input[n..], i);
    }
    forall i | 0 <= i < n ensures input[i] != '\0' { assert s[i] == input[i]; }
    hide Run, Step, BlankLineEndsAt;
  }
}
