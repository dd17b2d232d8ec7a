/** The reading side of the connection as the program has it: a buffer of fixed size that is filled from
    an offset, and parsed from its start after every read. */
module ConnectionReader {
  import opened Basics
  import opened RequestSpec
  import opened RequestParser
  import opened ConnectionSpec

  /** Where the first blank line starts, by comparing place after place. */
  method FindBlankLine(text: string, ghost end: nat) returns (pos: nat)
    requires BlankLineEndsAt(text, end) && forall i :: i < end ==> !BlankLineEndsAt(text, i)
    ensures pos + 4 == end
  {
    pos := 0;
    while !BlankLineEndsAt(text, pos + 4)
      invariant pos + 4 <= end
      decreases end - pos
    {
      pos := pos + 1;
    }
  }

  /** The comparison is made on unsigned numbers, where a body longer than the buffer wraps around. */
  lemma ComparesAsUnsigned(pos: nat, total: nat, n: nat)
    requires pos + 4 <= total <= BUFFER_SIZE && n < TWO64
    ensures pos == (total - n - 4) % TWO64 <==> total == pos + 4 + n
  {
    if total >= n + 4 {
      assert (total - n - 4) % TWO64 == total - n - 4;
    } else {
      assert total - n - 4 == -1 * TWO64 + (total - n - 4 + TWO64);
    }
  }

  lemma {:induction false} LengthFits(hs: seq<Header>, before: nat)
    requires before < TWO64
    ensures var r := ContentLength(hs, before); r.Some? ==> r.value < TWO64
  {
    if hs != [] {
      LengthFits(hs[1..], before);
    }
  }

  lemma DecideEarly(o: Outcome, total: nat, expected: nat, boundary: bool)
    ensures o.verdict.Bad? ==> Decide(o, total, expected, boundary) == (Refuse, expected)
    ensures o.verdict.Indeterminate? ==> Decide(o, total, expected, boundary) == (ReadOn, expected)
  {
  }

  /** What is kept is a front part of the buffer. */
  lemma KeptPrefix(c: Conn, chunk: string, o: Outcome, act: Act, start: nat)
    requires var n := |c.kept + chunk|;
      start == if !o.verdict.Good? || o.conf.req.verb != "POST" || act == Fail || act == HandOver then |c.kept|
        else if act == Answer || n >= BUFFER_SIZE then 0 else n
    ensures start <= |c.kept + chunk| && (c.kept + chunk)[..start] == Keep(c, o, c.kept + chunk, act)
  {
  }

  class Connection {
    const buffer: array<char>
    const request: RequestRecord
    const parser: Parser
    var offset: nat
    var contentLen: nat

    /** The expected length is not initialised. */
    constructor (major: int, minor: int, contentLen: nat)
      requires contentLen < TWO64
      ensures Valid() && View() == Conn("", contentLen, major, minor)
      ensures fresh(buffer) && fresh(request) && fresh(parser)
    {
      buffer := new char[BUFFER_SIZE];
      request := new RequestRecord(major, minor);
      parser := new Parser();
      offset := 0;
      this.contentLen := contentLen;
    }

    ghost predicate Valid()
      reads this
    {
      buffer.Length == BUFFER_SIZE && offset <= BUFFER_SIZE && contentLen < TWO64
    }

    /** Where the next read starts: a full buffer is written from its start again. */
    function Start(): (n: nat)
      requires Valid()
      reads this
      ensures n < BUFFER_SIZE
    {
      if offset >= BUFFER_SIZE then 0 else offset
    }

    ghost function View(): Conn
      requires Valid()
      reads this, buffer, request
    {
      Conn(buffer[..Start()], contentLen, request.major, request.minor)
    }

    /** The first length that the headers give, or the one from before. */
    method FindLength() returns (found: Option<nat>)
      ensures found == ContentLength(request.headers, contentLen)
    {
      hide Unsigned;
      var i := 0;
      var hs := request.headers;
      while i < |hs|
        invariant 0 <= i <= |hs| && ContentLength(hs[i..], contentLen) == ContentLength(hs, contentLen)
      {
        assert hs[i..][1..] == hs[i + 1..];
        if hs[i].name == "Content-Length" {
          return Unsigned(hs[i].value);
        }
        i := i + 1;
      }
      found := Some(contentLen);
    }

    /** What is done with a good request: its length is looked up, and the body of a post that is no
        upload is complete if the buffer ends where it ends. */
    method Settle(text: string, next: nat, boundary: bool, ghost o: Outcome) returns (act: Act)
      requires contentLen < TWO64 && |text| <= BUFFER_SIZE
      requires o.verdict.Good? && o.conf.req == request.View() && o.used == next
      requires BlankLineEndsAt(text, next) && forall i :: i < next ==> !BlankLineEndsAt(text, i)
      modifies this`offset, this`contentLen
      ensures contentLen < TWO64 && (act, contentLen) == Decide(o, |text|, old(contentLen), boundary)
      ensures offset == if request.verb != "POST" || act == Fail || act == HandOver then old(offset)
        else if act == Answer then 0 else |text|
    {
      hide ContentLength;
      var found := FindLength();
      LengthFits(request.headers, contentLen);
      if found.None? {
        return Fail;
      }
      contentLen := found.value;
      if request.verb != "POST" {
        return Answer;
      }
      if boundary && (request.uri == "/uploadfiletodb.action" || request.uri == "/uploadfile.action") {
        return HandOver;
      }
      var pos := FindBlankLine(text, next);
      ComparesAsUnsigned(pos, |text|, contentLen);
      if pos == (|text| - contentLen - 4) % TWO64 {
        offset := 0;
        act := Answer;
      } else {
        offset := |text|;
        act := ReadOn;
      }
    }

    /** One read: the chunk goes behind what is kept, the request is cleared, and the buffer is parsed
        from its start. `boundary` says that an upload has named its boundary. */
    method DoRead(chunk: string, boundary: bool) returns (act: Act, v: Verdict, next: nat)
      requires Valid() && |chunk| <= BUFFER_SIZE - Start()
      modifies this`offset, this`contentLen, buffer, request, parser
      ensures Valid()
      ensures (act, Outcome(v, parser.At(request), next), View()) == Read(old(View()), chunk, boundary)
    {
      hide ParseFrom, Decide, Keep;
      ghost var c := View();
      if offset >= BUFFER_SIZE {
        offset := 0;
      }
      var text := Fill(chunk);
      assert text == c.kept + chunk;
      v, next := ParseBuffer(text);
      ghost var o := ParseFrom(Cleared(c.major, c.minor), text);
      DecideEarly(o, |text|, contentLen, boundary);
      if v == Bad {
        act := Refuse;
      } else if v == Indeterminate {
        act := ReadOn;
      } else {
        GoodEndsAtFirstBlankLine(Cleared(c.major, c.minor), text);
        act := Settle(text, next, boundary, o);
      }
      KeptPrefix(c, chunk, o, act, Start());
      assert buffer[..Start()] == text[..Start()];
    }

    /** The version numbers are all that an earlier parse leaves in the request. */
    method ParseBuffer(text: string) returns (v: Verdict, next: nat)
      modifies request, parser
      ensures next <= |text|
      ensures Outcome(v, parser.At(request), next)
           == ParseFrom(Cleared(old(request.major), old(request.minor)), text)
    {
      hide ParseFrom;
      request.Clear();
      v, next := parser.Parse(request, text, 0);
      assert text[0..] == text;
    }

    /** Puts a chunk behind what is kept, and returns what the buffer then holds. */
    method Fill(chunk: string) returns (text: string)
      requires buffer.Length == BUFFER_SIZE && offset + |chunk| <= BUFFER_SIZE
      modifies buffer
      ensures text == old(buffer[..offset]) + chunk && text == buffer[..offset + |chunk|]
    {
      forall i | 0 <= i < |chunk| { buffer[offset + i] := chunk[i]; }
      text := buffer[..offset + |chunk|];
    }
  }
}
