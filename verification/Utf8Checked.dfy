/** checked.h: the functions that throw. Iterators are positions in a text, output iterators
    are sequences that grow, and an exception is a value returned beside the rest. */
module Utf8Checked {
  import opened Utf8Chars
  import opened Utf8Text
  import opened Utf16Text
  import opened Utf8Core

  datatype Exn = NoThrow | ThrowNotEnoughRoom | ThrowInvalidUtf8(octet: Octet)
               | ThrowInvalidUtf16(word: Unit) | ThrowInvalidCodePoint(cp: CodePoint) | ThrowOutOfRange

  /** The exception `next` makes of an error. The code point of an invalid one was never
      handed out by the decoder, so the exception carries 0. */
  function Thrown(err: UtfError, lead: Octet): Exn {
    match err
    case Utf8Ok => NoThrow
    case NotEnoughRoom => ThrowNotEnoughRoom
    case InvalidCodePoint => ThrowInvalidCodePoint(0)
    case _ => ThrowInvalidUtf8(lead)
  }

  /** The exception that ends a loop of `next` over a text, if any. */
  function ScanExn(s: seq<Octet>): Exn
    decreases |s|
  {
    if s == [] then NoThrow else
    match Classify(s)
    case Good(_, n) => ScanExn(s[n..])
    case Bad(err) => Thrown(err, s[0])
  }

  lemma {:induction false} ThrowsIffInvalid(s: seq<Octet>)
    ensures ScanExn(s).NoThrow? <==> Valid(s)
    decreases |s|
  {
    hide Classify;
    if s != [] && Classify(s).Good? {
      ThrowsIffInvalid(s[Classify(s).n..]);
    }
  }

  method Append(cp: CodePoint, result: seq<Octet>) returns (out: seq<Octet>, exn: Exn)
    ensures IsCodePointValid(cp) ==> exn.NoThrow? && out == result + Encode(cp)
    ensures !IsCodePointValid(cp) ==> exn == ThrowInvalidCodePoint(cp) && out == result
  {
    hide IsCodePointValid, Low8, Lead2, Lead3, Lead4, Bits12, Bits6, Bits0;
    out, exn := result, NoThrow;
    if !IsCodePointValid(cp) {
      return out, ThrowInvalidCodePoint(cp);
    }
    if cp < 0x80 {
      out := out + [Low8(cp)];
    } else if cp < 0x800 {
      out := out + [Lead2(cp)];
      out := out + [Bits0(cp)];
    } else if cp < 0x10000 {
      out := out + [Lead3(cp)];
      out := out + [Bits6(cp)];
      out := out + [Bits0(cp)];
    } else {
      out := out + [Lead4(cp)];
      out := out + [Bits12(cp)];
      out := out + [Bits6(cp)];
      out := out + [Bits0(cp)];
    }
    assert out == result + Encode(cp);
  }

  method Next(text: seq<Octet>, it0: nat, end: nat) returns (cp: CodePoint, it: nat, exn: Exn)
    requires it0 < end <= |text|
    ensures match Classify(text[it0..end])
      case Good(c, n) => exn == NoThrow && it == it0 + n && cp == c
      case Bad(err) => exn == Thrown(err, text[it0]) && !exn.NoThrow? && it == it0
  {
    hide Classify;
    var err;
    err, it, cp := ValidateNext(text, it0, end, 0);
    match err
    case Utf8Ok => exn := NoThrow;
    case NotEnoughRoom => exn := ThrowNotEnoughRoom;
    case InvalidLead => exn := ThrowInvalidUtf8(text[it]);
    case IncompleteSequence => exn := ThrowInvalidUtf8(text[it]);
    case OverlongSequence => exn := ThrowInvalidUtf8(text[it]);
    case InvalidCodePoint => exn := ThrowInvalidCodePoint(cp);
  }

  /** The code point that `next` blames, 0, is never the one the text spells. */
  lemma BlamesAnother(s: seq<Octet>)
    requires s != [] && Classify(s) == Bad(InvalidCodePoint)
    ensures var n := SequenceLength(s[0]);
      1 <= n <= |s| && Thrown(InvalidCodePoint, s[0]).cp == 0 != Spell(s[..n])
  {
    hide SequenceLength, Spell, AllTrails;
  }

  /** A surrogate that is spelled out: the octets ed a0 80 spell 0xd800. */
  lemma BlameExample()
    ensures Classify([0xed, 0xa0, 0x80]) == Bad(InvalidCodePoint) && Spell([0xed, 0xa0, 0x80]) == 0xd800
  {
    var s: seq<Octet> := [0xed, 0xa0, 0x80];
    assert SequenceLength(s[0]) == 3 && AllTrails(s, 1, 3) && s[..3] == s;
  }

  // ---------------------------------------------------------------------------------
  // Stepping backwards.

  /** The last place in [start, it) that holds no trail octet, or start - 1. */
  function LastLead(text: seq<Octet>, start: nat, it: nat): (j: int)
    requires start <= it <= |text|
    ensures start - 1 <= j < it || (j == start - 1 && it == start)
    ensures AllTrails(text, j + 1, it)
    ensures start <= j ==> !IsTrail(text[j])
  {
    if it == start then start - 1
    else if !IsTrail(text[it - 1]) then it - 1
    else LastLead(text, start, it - 1)
  }

  lemma LastLeadUnique(text: seq<Octet>, start: nat, it: nat, j: int)
    requires start <= it <= |text| && start - 1 <= j < it
    requires AllTrails(text, j + 1, it) && (start <= j ==> !IsTrail(text[j]))
    ensures LastLead(text, start, it) == j
  {
    hide IsTrail;
  }

  /** Step back to the octet that leads the sequence before `it0`, and decode it. */
  method Prior(text: seq<Octet>, it0: nat, start: nat) returns (cp: CodePoint, it: nat, exn: Exn)
    requires start <= it0 <= |text|
    ensures start <= it <= it0
    ensures it0 == start ==> exn == ThrowNotEnoughRoom && it == it0
    ensures start < it0 && LastLead(text, start, it0) < start ==> exn == ThrowInvalidUtf8(text[start]) && it == start
    ensures LastLead(text, start, it0) >= start ==>
      && it == LastLead(text, start, it0)
      && match Classify(text[it..it0])
         case Good(c, _) => exn == NoThrow && cp == c
         case Bad(err) => exn == Thrown(err, text[it])
  {
    hide Classify, IsTrail;
    cp, it := 0, it0;
    if it == start {
      return cp, it, ThrowNotEnoughRoom;
    }
    var end := it;
    it := it - 1;
    while IsTrail(text[it])
      invariant start <= it < end && AllTrails(text, it + 1, end)
      decreases it
    {
      if it == start {
        LastLeadUnique(text, start, it0, start - 1);
        return cp, it, ThrowInvalidUtf8(text[it]);
      }
      it := it - 1;
    }
    LastLeadUnique(text, start, it0, it);
    var ignored;
    cp, ignored, exn := Next(text, it, end);
  }

  lemma LeadNoTrail(b: Octet)
    ensures SequenceLength(b) != 0 ==> !IsTrail(b)
  {
  }

  /** An accepted sequence is one lead octet and trail octets. */
  lemma GoodShape(s: seq<Octet>)
    requires s != [] && Classify(s).Good?
    ensures !IsTrail(s[0]) && AllTrails(s, 1, Classify(s).n)
  {
    hide IsTrail, SequenceLength, Spell, IsCodePointValid, IsOverlong;
    LeadNoTrail(s[0]);
  }

  /** `prior` undoes `next`: it comes back to the same place and finds the same code point. */
  lemma PriorUndoesNext(text: seq<Octet>, start: nat, p: nat, end: nat)
    requires start <= p < end <= |text| && Classify(text[p..end]).Good?
    ensures var Good(cp, n) := Classify(text[p..end]);
      LastLead(text, start, p + n) == p && Classify(text[p..p + n]) == Good(cp, n)
  {
    hide Classify, IsTrail;
    var s := text[p..end];
    var n := Classify(s).n;
    GoodShape(s);
    forall j | p + 1 <= j < p + n ensures IsTrail(text[j]) { assert text[j] == s[j - p]; }
    LastLeadUnique(text, start, p + n, p);
    GoodPrefix(s, n, n);
    assert s[..n] == text[p..p + n];
  }

  /** The last character of a text starts at j: the rest is valid and has the other code points. */
  ghost predicate LastCharAt(s: seq<Octet>, j: int) {
    && 0 <= j < |s| && Valid(s[..j]) && Classify(s[j..]).Good?
    && Scan(s).cps == Scan(s[..j]).cps + [Classify(s[j..]).cp]
  }

  /** On a valid text, `prior` from the end finds the last character. */
  lemma {:induction false} PriorOnValid(s: seq<Octet>)
    requires Valid(s) && s != []
    ensures LastCharAt(s, LastLead(s, 0, |s|))
    decreases |s|
  {
    hide Classify, IsTrail;
    var n := Classify(s).n;
    if n == |s| {
      OnlyChar(s);
    } else {
      PriorOnValid(s[n..]);
      var j := LastLead(s[n..], 0, |s| - n);
      BehindChar(s, j);
      BehindLead(s, n, j);
    }
  }

  lemma OnlyChar(s: seq<Octet>)
    requires s != [] && Classify(s).Good? && Classify(s).n == |s|
    ensures LastCharAt(s, LastLead(s, 0, |s|))
  {
    hide Classify, IsTrail;
    assert s[0..|s|] == s[0..] == s[..|s|] == s;
    PriorUndoesNext(s, 0, 0, |s|);
    assert s[..0] == [] && s[|s|..] == [];
  }

  lemma BehindChar(s: seq<Octet>, j: int)
    requires s != [] && Classify(s).Good? && LastCharAt(s[Classify(s).n..], j)
    ensures LastCharAt(s, Classify(s).n + j)
  {
    hide Classify;
    var Good(cp, n) := Classify(s);
    var t := s[n..];
    assert s[n + j..] == t[j..] && s[..n + j][n..] == t[..j];
    GoodPrefix(s, n, n + j);
    var last := Classify(t[j..]).cp;
    assert [cp] + (Scan(t[..j]).cps + [last]) == [cp] + Scan(t[..j]).cps + [last];
  }

  lemma BehindLead(s: seq<Octet>, n: nat, j: int)
    requires n < |s| && 0 <= j && j == LastLead(s[n..], 0, |s| - n)
    ensures LastLead(s, 0, |s|) == n + j
  {
    hide IsTrail;
    var t := s[n..];
    forall i | n + j + 1 <= i < |s| ensures IsTrail(s[i]) { assert s[i] == t[i - n]; }
    LastLeadUnique(s, 0, |s|, n + j);
  }

  // ---------------------------------------------------------------------------------
  // Counting and moving.

  /** The number of code points in [first, last). */
  method Distance(text: seq<Octet>, first: nat, last: nat) returns (dist: nat, exn: Exn)
    requires first <= last <= |text|
    ensures exn == ScanExn(text[first..last])
    ensures dist == |Scan(text[first..last]).cps|
  {
    hide Classify;
    dist := 0;
    var it := first;
    while it < last
      invariant first <= it <= last
      invariant ScanExn(text[it..last]) == ScanExn(text[first..last])
      invariant dist + |Scan(text[it..last]).cps| == |Scan(text[first..last]).cps|
    {
      ghost var was := it;
      var ignored;
      ignored, it, exn := Next(text, it, last);
      if !exn.NoThrow? {
        return;
      }
      assert text[was..last][it - was..] == text[it..last];
      dist := dist + 1;
    }
    exn := NoThrow;
  }

  /** How many octets the first n code points of a text take. */
  function Span(s: seq<Octet>, n: nat): (k: nat)
    requires n <= |Scan(s).cps|
    ensures k <= |s|
    decreases n
  {
    if n == 0 then 0 else Classify(s).n + Span(s[Classify(s).n..], n - 1)
  }

  /** Those octets are the encoding of the n code points. */
  lemma {:induction false} SpanIsEncoded(s: seq<Octet>, n: nat)
    requires n <= |Scan(s).cps|
    ensures s[..Span(s, n)] == EncodeAll(Scan(s).cps[..n])
    decreases n
  {
    hide Scan, Span, Classify, Encode, EncodeAll, IsCodePointValid, IsChar;
    if n == 0 {
      SpanOfNone(s);
      EncodeAllEmpty();
    } else {
      SpanSplits(s, n);
      ClassifyIsSyntax(s);
      var Good(cp, m) := Classify(s);
      SpanIsEncoded(s[m..], n - 1);
      EncodeAllFront(cp, Scan(s[m..]).cps[..n - 1]);
    }
  }

  lemma EncodeAllEmpty()
    ensures EncodeAll([]) == []
  {
  }

  lemma SpanSplits(s: seq<Octet>, n: nat)
    requires 1 <= n <= |Scan(s).cps|
    ensures s != [] && Classify(s).Good?
    ensures var Good(cp, m) := Classify(s);
      && n - 1 <= |Scan(s[m..]).cps|
      && Scan(s).cps[..n] == [cp] + Scan(s[m..]).cps[..n - 1]
      && s[..Span(s, n)] == s[..m] + s[m..][..Span(s[m..], n - 1)]
  {
    hide Classify;
  }

  /** All code points of a text take what the scan used. */
  lemma {:induction false} SpanOfAll(s: seq<Octet>)
    ensures Span(s, |Scan(s).cps|) == Scan(s).used
    decreases |s|
  {
    hide Classify;
    if s != [] && Classify(s).Good? {
      SpanOfAll(s[Classify(s).n..]);
    }
  }

  /** Move over n code points. The caller has n of them ahead, or ill-formed text. */
  method Advance(text: seq<Octet>, it0: nat, n: int, end: nat) returns (it: nat, exn: Exn)
    requires it0 <= end <= |text|
    requires n <= |Scan(text[it0..end]).cps| || !Valid(text[it0..end])
    ensures n <= |Scan(text[it0..end]).cps| ==>
      exn == NoThrow && it == it0 + Span(text[it0..end], if n <= 0 then 0 else n)
    ensures n > |Scan(text[it0..end]).cps| ==>
      exn == ScanExn(text[it0..end]) && it == it0 + Scan(text[it0..end]).used
  {
    hide Classify, Scan, ScanExn, Span;
    it := it0;
    ghost var s0 := text[it0..end];
    ghost var count := |Scan(s0).cps|;
    SpanOfNone(s0);
    var i := 0;
    while i < n
      invariant 0 <= i && (i <= n || i == 0) && it0 <= it <= end && (i == 0 ==> it == it0)
      invariant count == i + |Scan(text[it..end]).cps|
      invariant i <= n <= count ==> it + Span(text[it..end], n - i) == it0 + Span(s0, n)
      invariant ScanExn(text[it..end]) == ScanExn(s0)
      invariant Valid(text[it..end]) <==> Valid(s0)
      invariant it + Scan(text[it..end]).used == it0 + Scan(s0).used
    {
      ghost var s := text[it..end];
      ghost var was := it;
      ScanStep(s, n - i);
      var ignored;
      ignored, it, exn := Next(text, it, end);
      if !exn.NoThrow? {
        return;
      }
      assert s[it - was..] == text[it..end];
      i := i + 1;
    }
    SpanOfNone(text[it..end]);
    exn := NoThrow;
  }

  lemma SpanOfNone(s: seq<Octet>)
    ensures Span(s, 0) == 0
  {
  }

  /** The first step of a scan, and of the functions that follow it. */
  lemma ScanStep(s: seq<Octet>, n: nat)
    ensures s == [] ==> Scan(s).cps == [] && Valid(s)
    ensures s != [] && Classify(s).Bad? ==>
      Scan(s).cps == [] && Scan(s).used == 0 && !Valid(s) && ScanExn(s) == Thrown(Classify(s).err, s[0])
    ensures s != [] && Classify(s).Good? ==>
      var t := s[Classify(s).n..];
      && |Scan(s).cps| == 1 + |Scan(t).cps| && Scan(s).used == Classify(s).n + Scan(t).used && (Valid(s) <==> Valid(t)) && ScanExn(s) == ScanExn(t)
      && (1 <= n <= |Scan(s).cps| ==> Span(s, n) == Classify(s).n + Span(t, n - 1))
  {
    hide Classify;
  }

  lemma {:induction false} EncodeAllAppend(a: seq<CodePoint>, b: seq<CodePoint>)
    ensures EncodeAll(a + b) == EncodeAll(a) + EncodeAll(b)
    decreases |a|
  {
    hide Encode;
    if a == [] {
      assert a + b == b;
    } else {
      EncodeAllAppend(a[1..], b);
      assert (a + b)[1..] == a[1..] + b;
    }
  }

  /** Moving over the distance of a valid range lands on its end. */
  method AdvanceByDistance(text: seq<Octet>, first: nat, last: nat) returns (it: nat)
    requires first <= last <= |text| && Valid(text[first..last])
    ensures it == last
  {
    hide Classify;
    var dist, exn := Distance(text, first, last);
    it, exn := Advance(text, first, dist, last);
    SpanOfAll(text[first..last]);
    ScanUsesAll(text[first..last]);
  }

  // ---------------------------------------------------------------------------------
  // Repair.

  /** The first place from k on that holds no trail octet. */
  function SkipTrails(s: seq<Octet>, k: nat): (n: nat)
    requires k <= |s|
    ensures k <= n <= |s| && AllTrails(s, k, n)
    decreases |s| - k
  {
    if k < |s| && IsTrail(s[k]) then SkipTrails(s, k + 1) else k
  }

  /** How many octets one replacement mark stands for. */
  function MarkSpan(s: seq<Octet>, err: UtfError): (n: nat)
    requires s != []
    ensures 1 <= n <= |s| && AllTrails(s, 1, n)
  {
    if err.InvalidLead? then 1 else SkipTrails(s, 1)
  }

  /** The text with its errors replaced, and the exception that cut the work short. */
  function Repair(s: seq<Octet>, mark: CodePoint): (r: (seq<Octet>, Exn))
    decreases |s|
  {
    if s == [] then ([], NoThrow) else
    match Classify(s)
    case Good(_, n) =>
      var rest := Repair(s[n..], mark);
      (s[..n] + rest.0, rest.1)
    case Bad(err) =>
      if err.NotEnoughRoom? then ([], ThrowNotEnoughRoom)
      else if !IsCodePointValid(mark) then ([], ThrowInvalidCodePoint(mark))
      else
        var rest := Repair(s[MarkSpan(s, err)..], mark);
        (Encode(mark) + rest.0, rest.1)
  }

  predicate IsRepairStep(s: seq<Octet>, mark: CodePoint, piece: seq<Octet>, n: nat)
    requires s != [] && n <= |s|
  {
    match Classify(s)
    case Good(_, m) => piece == s[..n] && n == m
    case Bad(err) =>
      !err.NotEnoughRoom? && IsCodePointValid(mark) && piece == Encode(mark) && n == MarkSpan(s, err)
  }

  /** One step of the repair: what is written, and how many octets it stands for. */
  lemma RepairStep(s: seq<Octet>, mark: CodePoint, piece: seq<Octet>, n: nat, before: seq<Octet>)
    requires s != [] && n <= |s|
    requires IsRepairStep(s, mark, piece, n)
    ensures (before + piece) + Repair(s[n..], mark).0 == before + Repair(s, mark).0
    ensures Repair(s[n..], mark).1 == Repair(s, mark).1
  {
    hide Classify, IsCodePointValid, Encode, MarkSpan;
    var rest := Repair(s[n..], mark).0;
    assert (before + piece) + rest == before + (piece + rest);
  }

  /** Where the repair stops. */
  lemma RepairStops(s: seq<Octet>, mark: CodePoint)
    ensures s == [] ==> Repair(s, mark) == ([], NoThrow)
    ensures s != [] && Classify(s) == Bad(NotEnoughRoom) ==> Repair(s, mark) == ([], ThrowNotEnoughRoom)
    ensures s != [] && Classify(s).Bad? && !Classify(s).err.NotEnoughRoom? && !IsCodePointValid(mark)
      ==> Repair(s, mark) == ([], ThrowInvalidCodePoint(mark))
  {
    hide Classify, IsCodePointValid;
  }

  method ReplaceInvalid(text: seq<Octet>, start0: nat, end: nat, out0: seq<Octet>, replacement: CodePoint)
    returns (out: seq<Octet>, exn: Exn)
    requires start0 <= end <= |text|
    ensures out == out0 + Repair(text[start0..end], replacement).0
    ensures exn == Repair(text[start0..end], replacement).1
  {
    hide Classify, IsCodePointValid, Encode, MarkSpan, Repair;
    out, exn := out0, NoThrow;
    var start := start0;
    ghost var goal := Repair(text[start0..end], replacement);
    while start != end
      invariant start0 <= start <= end
      invariant out + Repair(text[start..end], replacement).0 == out0 + goal.0
      invariant Repair(text[start..end], replacement).1 == goal.1
      decreases end - start
    {
      var sequenceStart := start;
      ghost var s, was := text[start..end], out;
      RepairStops(s, replacement);
      var err, ignored;
      err, start, ignored := ValidateNext(text, start, end, 0);
      if err.Utf8Ok? {
        out := CopyOctets(text, sequenceStart, start, out);
        assert s[..start - sequenceStart] == text[sequenceStart..start];
        RepairStep(s, replacement, text[sequenceStart..start], start - sequenceStart, was);
      } else if err.NotEnoughRoom? {
        return out, ThrowNotEnoughRoom;
      } else {
        out, exn := Append(replacement, out);
        if !exn.NoThrow? {
          return;
        }
        start := SkipMarked(text, start, end, err);
        RepairStep(s, replacement, Encode(replacement), start - sequenceStart, was);
      }
      assert s[start - sequenceStart..] == text[start..end];
    }
    RepairStops(text[start..end], replacement);
    exn := NoThrow;
  }

  /** Step behind the octets that one mark replaces: one, and the trail octets after it
      unless the octet could not lead at all. */
  method SkipMarked(text: seq<Octet>, start0: nat, end: nat, err: UtfError) returns (start: nat)
    requires start0 < end <= |text|
    ensures start0 < start <= end && AllTrails(text, start0 + 1, start)
    ensures err.InvalidLead? ==> start == start0 + 1
    ensures !err.InvalidLead? ==> start == end || !IsTrail(text[start])
    ensures start == start0 + MarkSpan(text[start0..end], err)
  {
    hide IsTrail;
    start := start0 + 1;
    if !err.InvalidLead? {
      ghost var s := text[start0..end];
      while start != end && IsTrail(text[start])
        invariant start0 < start <= end && AllTrails(text, start0 + 1, start)
        invariant SkipTrails(s, start - start0) == SkipTrails(s, 1)
        decreases end - start
      {
        assert s[start - start0] == text[start];
        start := start + 1;
      }
      assert start < end ==> s[start - start0] == text[start];
    }
  }

  method CopyOctets(text: seq<Octet>, first: nat, last: nat, out0: seq<Octet>) returns (out: seq<Octet>)
    requires first <= last <= |text|
    ensures out == out0 + text[first..last]
  {
    out := out0;
    var it := first;
    while it != last
      invariant first <= it <= last && out == out0 + text[first..it]
      decreases last - it
    {
      out := out + [text[it]];
      it := it + 1;
    }
  }

  /** A valid text is left as it is. */
  lemma {:induction false} RepairKeepsValid(s: seq<Octet>, mark: CodePoint)
    requires Valid(s)
    ensures Repair(s, mark) == (s, NoThrow)
    decreases |s|
  {
    hide Classify;
    if s != [] {
      var n := Classify(s).n;
      RepairKeepsValid(s[n..], mark);
      assert s[..n] + s[n..] == s;
    }
  }

  /** What is written is valid, whatever the text and even when the work is cut short. */
  lemma {:induction false} RepairedIsValid(s: seq<Octet>, mark: CodePoint)
    ensures Valid(Repair(s, mark).0)
    decreases |s|
  {
    hide Classify, IsCodePointValid, Encode, MarkSpan;
    if s != [] {
      match Classify(s)
      case Good(cp, n) =>
        RepairedIsValid(s[n..], mark);
        OneGood(s);
        ValidAppend(s[..n], Repair(s[n..], mark).0);
      case Bad(err) =>
        if !err.NotEnoughRoom? && IsCodePointValid(mark) {
          var rest := s[MarkSpan(s, err)..];
          RepairedIsValid(rest, mark);
          OneEncoded(mark);
          ValidAppend(Encode(mark), Repair(rest, mark).0);
        }
    }
  }

  lemma OneGood(s: seq<Octet>)
    requires s != [] && Classify(s).Good?
    ensures Valid(s[..Classify(s).n])
  {
    hide Classify;
    var n := Classify(s).n;
    GoodPrefix(s, n, n);
    var t := s[..n];
    assert t[n..] == [];
    assert Valid(t[n..]);
  }

  lemma OneEncoded(cp: CodePoint)
    requires IsCodePointValid(cp)
    ensures Valid(Encode(cp))
  {
    hide Classify, Encode, IsCodePointValid;
    ClassifyEncoded(cp, []);
    var t := Encode(cp);
    assert t + [] == t && t[|t|..] == [];
    assert Valid(t[|t|..]);
  }

  /** Repairing again changes nothing. */
  lemma RepairTwice(s: seq<Octet>, mark: CodePoint)
    ensures Repair(Repair(s, mark).0, mark) == (Repair(s, mark).0, NoThrow)
  {
    RepairedIsValid(s, mark);
    RepairKeepsValid(Repair(s, mark).0, mark);
  }

  /** From place k on there is nothing but the front part of one sequence. */
  predicate TruncatedAt(s: seq<Octet>, k: int)
    requires 0 <= k < |s|
  {
    SequenceLength(s[k]) > |s| - k && AllTrails(s, k + 1, |s|)
  }

  predicate Truncated(s: seq<Octet>) { exists k :: 0 <= k < |s| && TruncatedAt(s, k) }

  /** With a valid mark the work is cut short exactly when the text ends inside a sequence. */
  lemma {:induction false} RepairThrowsIffTruncated(s: seq<Octet>, mark: CodePoint)
    requires IsCodePointValid(mark)
    ensures Repair(s, mark).1 == if Truncated(s) then ThrowNotEnoughRoom else NoThrow
    decreases |s|
  {
    hide Classify, IsCodePointValid, Encode, MarkSpan, TruncatedAt;
    if s != [] {
      RoomAtFront(s);
      match Classify(s)
      case Good(_, n) =>
        GoodShape(s);
        RepairThrowsIffTruncated(s[n..], mark);
        TruncatedBehind(s, n);
      case Bad(err) =>
        if !err.NotEnoughRoom? {
          var n := MarkSpan(s, err);
          RepairThrowsIffTruncated(s[n..], mark);
          TruncatedBehind(s, n);
        }
    }
  }

  lemma RoomAtFront(s: seq<Octet>)
    requires s != []
    ensures Classify(s) == Bad(NotEnoughRoom) <==> TruncatedAt(s, 0)
  {
    hide IsTrail, SequenceLength, Spell, IsCodePointValid, IsOverlong;
  }

  lemma TruncatedBehind(s: seq<Octet>, n: nat)
    requires 1 <= n <= |s| && AllTrails(s, 1, n) && !TruncatedAt(s, 0)
    ensures Truncated(s) <==> Truncated(s[n..])
  {
    hide IsTrail, SequenceLength;
    var t := s[n..];
    forall k | 1 <= k < |s| ensures k < n ==> !TruncatedAt(s, k) { LeadNoTrail(s[k]); }
    forall k | 0 <= k < |t| ensures TruncatedAt(t, k) <==> TruncatedAt(s, n + k) { SameTrails(s, n, k); }
    if Truncated(s) {
      var k :| 0 <= k < |s| && TruncatedAt(s, k);
      assert TruncatedAt(t, k - n);
    }
    if Truncated(t) {
      var k :| 0 <= k < |t| && TruncatedAt(t, k);
      assert TruncatedAt(s, n + k);
    }
  }

  lemma SameTrails(s: seq<Octet>, n: nat, k: nat)
    requires n + k < |s|
    ensures AllTrails(s[n..], k + 1, |s| - n) <==> AllTrails(s, n + k + 1, |s|)
  {
    hide IsTrail;
    var t := s[n..];
    if AllTrails(t, k + 1, |t|) {
      forall j | n + k + 1 <= j < |s| ensures IsTrail(s[j]) { assert s[j] == t[j - n]; }
    }
    if AllTrails(s, n + k + 1, |s|) {
      forall j | k + 1 <= j < |t| ensures IsTrail(t[j]) { assert t[j] == s[n + j]; }
    }
  }

  /** With an invalid mark nothing can be replaced: only a valid text gets through. */
  lemma {:induction false} RepairWithBadMark(s: seq<Octet>, mark: CodePoint)
    requires !IsCodePointValid(mark)
    ensures Repair(s, mark).1.NoThrow? <==> Valid(s)
    ensures Repair(s, mark).0 == s[..Scan(s).used]
    decreases |s|
  {
    hide Classify, IsCodePointValid;
    if s != [] && Classify(s).Good? {
      var n := Classify(s).n;
      RepairWithBadMark(s[n..], mark);
      assert s[..n] + s[n..][..Scan(s[n..]).used] == s[..n + Scan(s[n..]).used];
    }
  }
}
