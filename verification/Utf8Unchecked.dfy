/** unchecked.h: the fast twin without error checks. On the inputs it is meant for, each
    function meets the contract of its checked counterpart. */
module Utf8Unchecked {
  import opened Utf8Chars
  import opened Utf8Text
  import opened Utf16Text
  import opened Utf8Core
  import opened Utf8Checked
  import opened Utf8Errors
  import opened Utf8Transcode

  /** No check: any value is written by the widths and bit patterns of a code point. */
  method AppendUnchecked(cp: CodePoint, result: seq<Octet>) returns (out: seq<Octet>)
    ensures out == result + Encode(cp)
  {
    hide Low8, Lead2, Lead3, Lead4, Bits12, Bits6, Bits0;
    out := result;
    if cp < 0x80 {
      out := out + [Low8(cp)];
    } else if cp < 0x800 {
      out := out + [Lead2(cp)];
      out := out + [Bits0(cp)];
    } else if cp < 0x10000 {
      out := out + [Lead3(cp)];
      out := out + [Bits6(cp)];
      out := out + [Bits0(cp)];
    } else {
      out := out + [Lead4(cp)];
      out := out + [Bits12(cp)];
      out := out + [Bits6(cp)];
      out := out + [Bits0(cp)];
    }
    assert out == result + Encode(cp);
  }

  /** How many octets `next` moves over: what the lead octet announces, or one. */
  function Stride(lead: Octet): (n: nat)
    ensures 1 <= n <= 4
  {
    if SequenceLength(lead) == 0 then 1 else SequenceLength(lead)
  }

  /** Octet by octet: a stray trail octet, or one that starts no sequence, is taken for a character. */
  lemma StrideByOctets(b: Octet)
    ensures Stride(b) == if b < 0xc0 || 0xf8 <= b then 1 else Announced(b)
  {
    LengthIsAnnounced(b);
  }

  // The three cases of `next` in which trail octets are added up.
  method Add2(text: seq<Octet>, it0: nat) returns (cp: CodePoint, it: nat)
    requires it0 + 2 <= |text|
    ensures it == it0 + 1 && cp == Spell2(text[it0], text[it0 + 1])
  {
    it := it0;
    cp := text[it] as CodePoint;
    it := it + 1;
    cp := ((cp << 6) & 0x7ff) + ((text[it] as CodePoint) & 0x3f);
  }

  method Add3(text: seq<Octet>, it0: nat) returns (cp: CodePoint, it: nat)
    requires it0 + 3 <= |text|
    ensures it == it0 + 2 && cp == Spell3(text[it0], text[it0 + 1], text[it0 + 2])
  {
    it := it0;
    cp := text[it] as CodePoint;
    it := it + 1;
    cp := ((cp << 12) & 0xffff) + (((text[it] as CodePoint) << 6) & 0xfff);
    it := it + 1;
    cp := cp + ((text[it] as CodePoint) & 0x3f);
  }

  method Add4(text: seq<Octet>, it0: nat) returns (cp: CodePoint, it: nat)
    requires it0 + 4 <= |text|
    ensures it == it0 + 3 && cp == Spell4(text[it0], text[it0 + 1], text[it0 + 2], text[it0 + 3])
  {
    it := it0;
    cp := text[it] as CodePoint;
    it := it + 1;
    cp := ((cp << 18) & 0x1fffff) + (((text[it] as CodePoint) << 12) & 0x3ffff);
    it := it + 1;
    cp := cp + (((text[it] as CodePoint) << 6) & 0xfff);
    it := it + 1;
    cp := cp + ((text[it] as CodePoint) & 0x3f);
  }

  /** Reads as many octets as the lead announces; the caller owns that many. */
  method NextUnchecked(text: seq<Octet>, it0: nat) returns (cp: CodePoint, it: nat)
    requires it0 < |text| && it0 + Stride(text[it0]) <= |text|
    ensures it == it0 + Stride(text[it0])
    ensures cp == Spell(text[it0..it])
  {
    hide SequenceLength, Spell, Spell2, Spell3, Spell4;
    SpellSlice(text, it0);
    it := it0;
    cp := text[it] as CodePoint;
    var length := SequenceLength(text[it]);
    if length == 2 {
      cp, it := Add2(text, it);
    } else if length == 3 {
      cp, it := Add3(text, it);
    } else if length == 4 {
      cp, it := Add4(text, it);
    }
    it := it + 1;
  }

  /** On an accepted sequence the unchecked step is the checked one. */
  lemma StrideOfGood(text: seq<Octet>, it: nat, end: nat)
    requires it < end <= |text| && Classify(text[it..end]).Good?
    ensures var Good(cp, n) := Classify(text[it..end]);
      Stride(text[it]) == n && it + n <= end && Spell(text[it..it + n]) == cp
  {
    hide SequenceLength, IsTrail, Spell, IsCodePointValid, IsOverlong, TrailError;
    var s := text[it..end];
    assert s[..Classify(s).n] == text[it..it + Classify(s).n];
  }

  method PriorUnchecked(text: seq<Octet>, it0: nat) returns (cp: CodePoint, it: nat)
    requires it0 <= |text| && LastLead(text, 0, it0) >= 0
    requires LastLead(text, 0, it0) + Stride(text[LastLead(text, 0, it0)]) <= |text|
    ensures it == LastLead(text, 0, it0) && cp == Spell(text[it..it + Stride(text[it])])
  {
    hide IsTrail, Stride, Spell;
    it := it0 - 1;
    while IsTrail(text[it])
      invariant LastLead(text, 0, it0) <= it < it0 && AllTrails(text, it + 1, it0)
      decreases it
    {
      it := it - 1;
    }
    LastLeadUnique(text, 0, it0, it);
    var temp;
    cp, temp := NextUnchecked(text, it);
  }

  /** Behind an accepted sequence, the unchecked `prior` comes back to it and finds its code
      point, as the checked one does. */
  lemma PriorAgrees(text: seq<Octet>, p: nat, end: nat)
    requires p < end <= |text| && Classify(text[p..end]).Good?
    ensures var Good(cp, n) := Classify(text[p..end]);
      && LastLead(text, 0, p + n) == p && p + Stride(text[p]) == p + n
      && Spell(text[p..p + Stride(text[p])]) == cp
  {
    hide Classify, Stride, Spell;
    PriorUndoesNext(text, 0, p, end);
    StrideOfGood(text, p, end);
  }

  method DistanceUnchecked(text: seq<Octet>, first: nat, last: nat) returns (dist: nat)
    requires first <= last <= |text| && Valid(text[first..last])
    ensures dist == |Scan(text[first..last]).cps|
  {
    hide Classify, Stride, Spell;
    dist := 0;
    var it := first;
    while it < last
      invariant first <= it <= last && Valid(text[it..last])
      invariant dist + |Scan(text[it..last]).cps| == |Scan(text[first..last]).cps|
    {
      StrideOfGood(text, it, last);
      ghost var was := it;
      var ignored;
      ignored, it := NextUnchecked(text, it);
      assert text[was..last][it - was..] == text[it..last];
      dist := dist + 1;
    }
  }

  method AdvanceUnchecked(text: seq<Octet>, it0: nat, n: int, ghost end: nat) returns (it: nat)
    requires it0 <= end <= |text| && n <= |Scan(text[it0..end]).cps|
    ensures it == it0 + Span(text[it0..end], if n <= 0 then 0 else n)
  {
    hide Classify, Stride, Spell, Scan, Span;
    it := it0;
    var i := 0;
    ghost var s0 := text[it0..end];
    SpanOfNone(s0);
    while i < n
      invariant 0 <= i && (i <= n || i == 0) && it0 <= it <= end && (i == 0 ==> it == it0)
      invariant n - i <= |Scan(text[it..end]).cps|
      invariant i <= n ==> it + Span(text[it..end], n - i) == it0 + Span(s0, n)
    {
      ghost var s, was := text[it..end], it;
      ScanStep(s, n - i);
      StrideOfGood(text, it, end);
      var ignored;
      ignored, it := NextUnchecked(text, it);
      assert s[it - was..] == text[it..end];
      i := i + 1;
    }
    SpanOfNone(text[it..end]);
  }

  method Utf16to8Unchecked(units: seq<Unit>, result0: seq<Octet>) returns (result: seq<Octet>)
    requires SurrogatesPaired(units)
    ensures result == result0 + EncodeAll(Scan16(units).cps)
  {
    hide Join, IsLeadSurrogate, IsTrailSurrogate, Encode, EncodeAll, SurrogatesPaired;
    result := result0;
    var start := 0;
    ScansIffPaired(units);
    NothingToWrite(result);
    assert units[0..] == units;
    while start != |units|
      invariant 0 <= start <= |units|
      invariant result + EncodeAll(Scan16(units[start..]).cps) == result0 + EncodeAll(Scan16(units).cps)
      invariant Scan16(units[start..]).bad.None?
      decreases |units| - start
    {
      ghost var was, rest, before := start, units[start..], result;
      var word := units[start];
      var cp := word as CodePoint;
      start := start + 1;
      if IsLeadSurrogate(word) {
        var trail := units[start];
        start := start + 1;
        cp := Join(word, trail);
      }
      assert rest[start - was..] == units[start..];
      assert Scan16(rest).cps == [cp] + Scan16(units[start..]).cps;
      result := AppendUnchecked(cp, result);
      WroteOne(before, cp, Scan16(units[start..]).cps);
    }
    NothingToWrite(result);
  }

  method Utf8to16Unchecked(text: seq<Octet>, start0: nat, end: nat, result0: seq<Unit>)
    returns (result: seq<Unit>)
    requires start0 <= end <= |text| && Valid(text[start0..end])
    ensures result == result0 + EncodeAll16(Scan(text[start0..end]).cps)
  {
    hide Classify, EncodeAll16, LeadOf, TrailOf, Low16, Stride, Spell;
    result := result0;
    var start := start0;
    while start < end
      invariant start0 <= start <= end && Valid(text[start..end])
      invariant result + EncodeAll16(Scan(text[start..end]).cps) == result0 + EncodeAll16(Scan(text[start0..end]).cps)
    {
      ghost var was, s, before := start, text[start..end], result;
      StrideOfGood(text, start, end);
      var cp;
      cp, start := NextUnchecked(text, start);
      assert s[start - was..] == text[start..end];
      if cp > 0xffff {
        result := result + [LeadOf(cp)];
        result := result + [TrailOf(cp)];
      } else {
        result := result + [Low16(cp)];
      }
      assert result == before + Encode16(cp);
      WroteOne16(before, cp, Scan(text[start..end]).cps);
    }
    NothingToWrite16(result);
  }

  method Utf32to8Unchecked(cps: seq<CodePoint>, result0: seq<Octet>) returns (result: seq<Octet>)
    ensures result == result0 + EncodeAll(cps)
  {
    hide Encode, EncodeAll;
    result := result0;
    var start := 0;
    NothingToWrite(result);
    while start != |cps|
      invariant 0 <= start <= |cps| && result == result0 + EncodeAll(cps[..start])
      decreases |cps| - start
    {
      var cp := cps[start];
      start := start + 1;
      result := AppendUnchecked(cp, result);
      EncodeAllAppend(cps[..start - 1], [cp]);
      EncodeAllOne(cp);
      assert cps[..start - 1] + [cp] == cps[..start];
    }
    assert cps[..|cps|] == cps;
  }

  method Utf8to32Unchecked(text: seq<Octet>, start0: nat, end: nat, result0: seq<CodePoint>)
    returns (result: seq<CodePoint>)
    requires start0 <= end <= |text| && Valid(text[start0..end])
    ensures result == result0 + Scan(text[start0..end]).cps
  {
    hide Classify, Stride, Spell;
    result := result0;
    var start := start0;
    while start < end
      invariant start0 <= start <= end && Valid(text[start..end])
      invariant result + Scan(text[start..end]).cps == result0 + Scan(text[start0..end]).cps
    {
      ghost var was, s, before := start, text[start..end], result;
      StrideOfGood(text, start, end);
      var cp;
      cp, start := NextUnchecked(text, start);
      assert s[start - was..] == text[start..end];
      result := result + [cp];
      assert (before + [cp]) + Scan(text[start..end]).cps == before + ([cp] + Scan(text[start..end]).cps);
    }
  }

  /** The unchecked iterator: it moves by what the lead octet announces, without a range. */
  class UncheckedIterator {
    const text: seq<Octet>
    var it: nat

    constructor (text: seq<Octet>, at: nat)
      ensures it == at && this.text == text
    {
      this.text, it := text, at;
    }

    method Deref() returns (cp: CodePoint)
      requires it < |text| && it + Stride(text[it]) <= |text|
      ensures cp == Spell(text[it..it + Stride(text[it])])
    {
      var temp;
      cp, temp := NextUnchecked(text, it);
    }

    /** On a lead octet that announces nothing the iterator stays where it is. */
    method Increment()
      requires it < |text|
      modifies this`it
      ensures it == old(it) + SequenceLength(text[old(it)])
      ensures forall end :: old(it) < end <= |text| && Classify(text[old(it)..end]).Good? ==>
        it == old(it) + Classify(text[old(it)..end]).n
    {
      hide Classify, SequenceLength;
      forall end | it < end <= |text| && Classify(text[it..end]).Good?
        ensures SequenceLength(text[it]) == Classify(text[it..end]).n
      {
        AnnouncedByGood(text, it, end);
      }
      it := it + SequenceLength(text[it]);
    }

    method Decrement()
      requires it <= |text| && LastLead(text, 0, it) >= 0
      requires LastLead(text, 0, it) + Stride(text[LastLead(text, 0, it)]) <= |text|
      modifies this`it
      ensures it == LastLead(text, 0, old(it))
    {
      hide IsTrail, Stride, Spell, LastLead;
      var cp;
      cp, it := PriorUnchecked(text, it);
    }
  }

  lemma AnnouncedByGood(text: seq<Octet>, it: nat, end: nat)
    requires it < end <= |text| && Classify(text[it..end]).Good?
    ensures SequenceLength(text[it]) == Classify(text[it..end]).n
  {
    hide SequenceLength, IsTrail, Spell, IsCodePointValid, IsOverlong, TrailError;
  }
}
