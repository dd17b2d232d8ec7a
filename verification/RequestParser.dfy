/** The request parser as the program has it: an object that changes its state, and appends to
    a request object, one character at a time. */
module RequestParser {
  import opened RequestSpec

  class RequestRecord {
    var verb: string
    var uri: string
    var major: int
    var minor: int
    var headers: seq<Header>

    constructor (major: int, minor: int)
      ensures View() == Cleared(major, minor)
    {
      verb, uri, headers := "", "", [];
      this.major, this.minor := major, minor;
    }

    function View(): Request
      reads this
    {
      Request(verb, uri, major, minor, headers)
    }

    /** What the connection does before every parse; the version numbers stay. */
    method Clear()
      modifies this
      ensures View() == Cleared(old(major), old(minor))
    {
      headers := [];
      verb := "";
      uri := "";
    }

    method PushHeader(c: char)
      modifies this`headers
      ensures headers == old(headers) + [Header([c], "")]
    {
      headers := headers + [Header("", "")];
      assert "" + [c] == [c];
      headers := headers[|headers| - 1 := headers[|headers| - 1].(name := headers[|headers| - 1].name + [c])];
    }

    method PushBackName(c: char)
      requires headers != []
      modifies this`headers
      ensures View() == AddToName(old(View()), c)
    {
      var k := |headers| - 1;
      headers := headers[k := headers[k].(name := headers[k].name + [c])];
    }

    method PushBackValue(c: char)
      requires headers != []
      modifies this`headers
      ensures View() == AddToValue(old(View()), c)
    {
      var k := |headers| - 1;
      headers := headers[k := headers[k].(value := headers[k].value + [c])];
    }
  }

  class Parser {
    var state: State

    constructor ()
      ensures state == MethodStart
    {
      state := MethodStart;
    }

    ghost function At(req: RequestRecord): Conf
      reads this, req
    {
      Conf(state, req.View())
    }

    method Reset()
      modifies this
      ensures state == MethodStart
    {
      state := MethodStart;
    }

    /** Takes one character, exactly as the step function does; the last header is only touched
        in states that are reached when there is one. */
    method Consume(req: RequestRecord, input: char) returns (v: Verdict)
      requires At(req).HasHeader()
      modifies this, req
      ensures At(req).HasHeader()
      ensures (v, At(req)) == Step(old(At(req)), input)
    {
      hide Int32, IsCtl, IsChar, IsTspecial, IsDigit;
      match state
      case MethodStart =>
        if !IsChar(input) || IsCtl(input) || IsTspecial(input) { return Bad; }
        state := Method;
        req.verb := req.verb + [input];
        return Indeterminate;
      case Method =>
        if input == ' ' {
          state := Uri;
        } else if !IsChar(input) || IsCtl(input) || IsTspecial(input) {
          return Bad;
        } else {
          req.verb := req.verb + [input];
        }
        return Indeterminate;
      case Uri =>
        if input == ' ' {
          state := HttpVersionH;
        } else if IsCtl(input) {
          return Bad;
        } else {
          req.uri := req.uri + [input];
        }
        return Indeterminate;
      case HttpVersionH =>
        if input != 'H' { return Bad; }
        state := HttpVersionT1;
        return Indeterminate;
      case HttpVersionT1 =>
        if input != 'T' { return Bad; }
        state := HttpVersionT2;
        return Indeterminate;
      case HttpVersionT2 =>
        if input != 'T' { return Bad; }
        state := HttpVersionP;
        return Indeterminate;
      case HttpVersionP =>
        if input != 'P' { return Bad; }
        state := HttpVersionSlash;
        return Indeterminate;
      case HttpVersionSlash =>
        if input != '/' { return Bad; }
        req.major := 0;
        req.minor := 0;
        state := VersionMajorStart;
        return Indeterminate;
      case VersionMajorStart =>
        if !IsDigit(input) { return Bad; }
        req.major := Int32(req.major * 10 + input as int - '0' as int);
        state := VersionMajor;
        return Indeterminate;
      case VersionMajor =>
        if input == '.' {
          state := VersionMinorStart;
        } else if IsDigit(input) {
          req.major := Int32(req.major * 10 + input as int - '0' as int);
        } else {
          return Bad;
        }
        return Indeterminate;
      case VersionMinorStart =>
        if !IsDigit(input) { return Bad; }
        req.minor := Int32(req.minor * 10 + input as int - '0' as int);
        state := VersionMinor;
        return Indeterminate;
      case VersionMinor =>
        if input == '\r' {
          state := ExpectingNewline1;
        } else if IsDigit(input) {
          req.minor := Int32(req.minor * 10 + input as int - '0' as int);
        } else {
          return Bad;
        }
        return Indeterminate;
      case ExpectingNewline1 =>
        if input != '\n' { return Bad; }
        state := HeaderLineStart;
        return Indeterminate;
      case HeaderLineStart =>
        if input == '\r' {
          state := ExpectingNewline3;
        } else if req.headers != [] && (input == ' ' || input == '\t') {
          state := HeaderLws;
        } else if !IsChar(input) || IsCtl(input) || IsTspecial(input) {
          return Bad;
        } else {
          req.PushHeader(input);
          state := HeaderName;
        }
        return Indeterminate;
      case HeaderLws =>
        if input == '\r' {
          state := ExpectingNewline2;
        } else if input == ' ' || input == '\t' {
        } else if IsCtl(input) {
          return Bad;
        } else {
          state := HeaderValue;
          req.PushBackValue(input);
        }
        return Indeterminate;
      case HeaderName =>
        if input == ':' {
          state := SpaceBeforeHeaderValue;
        } else if !IsChar(input) || IsCtl(input) || IsTspecial(input) {
          return Bad;
        } else {
          req.PushBackName(input);
        }
        return Indeterminate;
      case SpaceBeforeHeaderValue =>
        if input != ' ' { return Bad; }
        state := HeaderValue;
        return Indeterminate;
      case HeaderValue =>
        if input == '\r' {
          state := ExpectingNewline2;
        } else if IsCtl(input) {
          return Bad;
        } else {
          req.PushBackValue(input);
        }
        return Indeterminate;
      case ExpectingNewline2 =>
        if input != '\n' { return Bad; }
        state := HeaderLineStart;
        return Indeterminate;
      case ExpectingNewline3 =>
        return if input == '\n' then Good else Bad;
    }

    /** Parses text[begin..] from the start state, up to a verdict. */
    method Parse(req: RequestRecord, text: string, begin: nat) returns (v: Verdict, next: nat)
      requires begin <= |text|
      modifies this, req
      ensures begin <= next <= |text|
      ensures Outcome(v, At(req), next - begin) == ParseFrom(old(req.View()), text[begin..])
    {
      hide Step;
      Reset();
      ghost var start := At(req);
      next := begin;
      while next != |text|
        invariant begin <= next <= |text| && At(req).HasHeader()
        invariant var o := Run(At(req), text[next..]);
          Run(start, text[begin..]) == o.(used := next - begin + o.used)
        decreases |text| - next
      {
        assert text[next..][1..] == text[next + 1..];
        next := next + 1;
        v := Consume(req, text[next - 1]);
        if v == Good || v == Bad { return; }
      }
      v := Indeterminate;
    }

    /** Going on behind a buffer that was parsed without a verdict is the same as clearing the
        request and parsing the longer buffer again. */
    method ParseAgain(req: RequestRecord, seen: string, more: string) returns (v: Verdict, next: nat)
      modifies this, req
      ensures next <= |seen + more|
      ensures var first := ParseFrom(Cleared(old(req.major), old(req.minor)), seen);
        Outcome(v, At(req), next) ==
          if first.verdict.Indeterminate? then
            var rest := Run(first.conf, more); rest.(used := |seen| + rest.used)
          else first
    {
      hide Run, Step;
      req.Clear();
      v, next := Parse(req, seen + more, 0);
      assert (seen + more)[0..] == seen + more;
      ReparseIsResume(Cleared(old(req.major), old(req.minor)), seen, more);
    }
  }
}
