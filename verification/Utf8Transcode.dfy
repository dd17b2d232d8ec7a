/** checked.h: the transcoding loops, and the bidirectional iterator. */
module Utf8Transcode {
  import opened Basics
  import opened Utf8Chars
  import opened Utf8Text
  import opened Utf16Text
  import opened Utf8Checked

  function Scan16Exn(units: seq<Unit>): Exn {
    match Scan16(units).bad
    case None => NoThrow
    case Some(word) => ThrowInvalidUtf16(word)
  }

  /** One code point was read from the front of a UTF-16 text and its octets were written. */
  lemma WroteOne(before: seq<Octet>, cp: CodePoint, cps: seq<CodePoint>)
    ensures (before + Encode(cp)) + EncodeAll(cps) == before + EncodeAll([cp] + cps)
  {
    hide Encode;
    EncodeAllFront(cp, cps);
  }

  lemma WroteOne16(before: seq<Unit>, cp: CodePoint, cps: seq<CodePoint>)
    ensures (before + Encode16(cp)) + EncodeAll16(cps) == before + EncodeAll16([cp] + cps)
  {
    hide Encode16;
    EncodeAll16Front(cp, cps);
  }

  /** Fails exactly where the scan fails; what stands before that place has been written. */
  method Utf16to8(units: seq<Unit>, result0: seq<Octet>) returns (result: seq<Octet>, exn: Exn)
    ensures result == result0 + EncodeAll(Scan16(units).cps)
    ensures exn == Scan16Exn(units)
  {
    hide Join, IsLeadSurrogate, IsTrailSurrogate, Encode, IsCodePointValid, EncodeAll;
    result := result0;
    var start := 0;
    NothingToWrite(result);
    assert units[0..] == units;
    while start != |units|
      invariant 0 <= start <= |units|
      invariant result + EncodeAll(Scan16(units[start..]).cps) == result0 + EncodeAll(Scan16(units).cps)
      invariant Scan16(units[start..]).bad == Scan16(units).bad
      decreases |units| - start
    {
      ghost var was, rest, before := start, units[start..], result;
      NothingToWrite(result);
      var word := units[start];
      var cp := word as CodePoint;
      start := start + 1;
      if IsLeadSurrogate(word) {
        if start != |units| {
          var trail := units[start];
          start := start + 1;
          if IsTrailSurrogate(trail) {
            cp := Join(word, trail);
          } else {
            return result, ThrowInvalidUtf16(trail);
          }
        } else {
          return result, ThrowInvalidUtf16(word);
        }
      } else if IsTrailSurrogate(word) {
        return result, ThrowInvalidUtf16(word);
      }
      assert rest[start - was..] == units[start..];
      assert Scan16(rest).cps == [cp] + Scan16(units[start..]).cps;
      Scan16AllValid(rest);
      assert Scan16(rest).cps[0] == cp;
      result, exn := Append(cp, result);
      WroteOne(before, cp, Scan16(units[start..]).cps);
    }
    exn := NoThrow;
  }

  lemma NothingToWrite(before: seq<Octet>)
    ensures before + EncodeAll([]) == before
  {
  }

  lemma NothingToWrite16(before: seq<Unit>)
    ensures before + EncodeAll16([]) == before
  {
  }

  method Utf8to16(text: seq<Octet>, start0: nat, end: nat, result0: seq<Unit>)
    returns (result: seq<Unit>, exn: Exn)
    requires start0 <= end <= |text|
    ensures result == result0 + EncodeAll16(Scan(text[start0..end]).cps)
    ensures exn == ScanExn(text[start0..end])
  {
    hide Classify, EncodeAll16, LeadOf, TrailOf, Low16;
    result := result0;
    var start := start0;
    NothingToWrite16(result);
    while start != end
      invariant start0 <= start <= end
      invariant result + EncodeAll16(Scan(text[start..end]).cps) == result0 + EncodeAll16(Scan(text[start0..end]).cps)
      invariant ScanExn(text[start..end]) == ScanExn(text[start0..end])
      decreases end - start
    {
      ghost var was, s, before := start, text[start..end], result;
      NothingToWrite16(result);
      var cp;
      cp, start, exn := Next(text, start, end);
      if !exn.NoThrow? {
        return;
      }
      assert s[start - was..] == text[start..end];
      if cp > 0xffff {
        result := result + [LeadOf(cp)];
        result := result + [TrailOf(cp)];
      } else {
        result := result + [Low16(cp)];
      }
      assert result == before + Encode16(cp);
      WroteOne16(before, cp, Scan(text[start..end]).cps);
    }
    NothingToWrite16(result);
    exn := NoThrow;
  }

  /** The number of code points before the first invalid one. */
  function ValidFront(cps: seq<CodePoint>): (n: nat)
    ensures n <= |cps| && AllValid(cps[..n])
    ensures n < |cps| ==> !IsCodePointValid(cps[n])
  {
    if cps == [] || !IsCodePointValid(cps[0]) then 0 else
    var n := 1 + ValidFront(cps[1..]);
    assert forall i :: 1 <= i < n ==> cps[i] == cps[1..][..n - 1][i - 1];
    n
  }

  method Utf32to8(cps: seq<CodePoint>, result0: seq<Octet>) returns (result: seq<Octet>, exn: Exn)
    ensures result == result0 + EncodeAll(cps[..ValidFront(cps)])
    ensures exn == if AllValid(cps) then NoThrow else ThrowInvalidCodePoint(cps[ValidFront(cps)])
  {
    hide Encode, IsCodePointValid, EncodeAll;
    result := result0;
    var start := 0;
    NothingToWrite(result);
    while start != |cps|
      invariant 0 <= start <= |cps| && AllValid(cps[..start])
      invariant result == result0 + EncodeAll(cps[..start])
      decreases |cps| - start
    {
      var cp := cps[start];
      start := start + 1;
      result, exn := Append(cp, result);
      if !exn.NoThrow? {
        FrontEndsAt(cps, start - 1);
        return;
      }
      EncodeAllAppend(cps[..start - 1], [cp]);
      EncodeAllOne(cp);
      assert cps[..start - 1] + [cp] == cps[..start];
    }
    FrontEndsAt(cps, |cps|);
    exn := NoThrow;
  }

  lemma EncodeAllOne(cp: CodePoint)
    ensures EncodeAll([cp]) == Encode(cp)
  {
    hide Encode;
    assert EncodeAll([cp]) == Encode(cp) + EncodeAll([]);
  }

  lemma {:induction false} FrontEndsAt(cps: seq<CodePoint>, n: nat)
    requires n <= |cps| && AllValid(cps[..n]) && (n < |cps| ==> !IsCodePointValid(cps[n]))
    ensures ValidFront(cps) == n && (AllValid(cps) <==> n == |cps|)
  {
    hide IsCodePointValid;
    if n > 0 {
      assert cps[0] == cps[..n][0];
      assert cps[1..][..n - 1] == cps[..n][1..];
      FrontEndsAt(cps[1..], n - 1);
    }
    assert cps[..|cps|] == cps;
  }

  method Utf8to32(text: seq<Octet>, start0: nat, end: nat, result0: seq<CodePoint>)
    returns (result: seq<CodePoint>, exn: Exn)
    requires start0 <= end <= |text|
    ensures result == result0 + Scan(text[start0..end]).cps
    ensures exn == ScanExn(text[start0..end])
  {
    hide Classify;
    result := result0;
    var start := start0;
    while start != end
      invariant start0 <= start <= end
      invariant result + Scan(text[start..end]).cps == result0 + Scan(text[start0..end]).cps
      invariant ScanExn(text[start..end]) == ScanExn(text[start0..end])
      decreases end - start
    {
      ghost var was, s, before := start, text[start..end], result;
      var cp;
      cp, start, exn := Next(text, start, end);
      if !exn.NoThrow? {
        return;
      }
      assert s[start - was..] == text[start..end];
      result := result + [cp];
      assert (before + [cp]) + Scan(text[start..end]).cps == before + ([cp] + Scan(text[start..end]).cps);
    }
    exn := NoThrow;
  }

  /** A position in a range of a text that moves by code points. */
  class Iterator {
    const text: seq<Octet>
    const rangeStart: nat
    const rangeEnd: nat
    var it: nat

    predicate InRange()
      reads this`it
    {
      rangeStart <= it <= rangeEnd <= |text|
    }

    constructor (text: seq<Octet>, at: nat, rangeStart: nat, rangeEnd: nat)
      requires rangeStart <= at <= rangeEnd <= |text|
      ensures InRange() && it == at
      ensures this.text == text && this.rangeStart == rangeStart && this.rangeEnd == rangeEnd
    {
      this.text, this.rangeStart, this.rangeEnd, it := text, rangeStart, rangeEnd, at;
    }

    /** Constructing an iterator throws for a position outside the range, and only then. */
    static method Make(text: seq<Octet>, at: nat, rangeStart: nat, rangeEnd: nat)
      returns (made: Iterator?, exn: Exn)
      requires rangeEnd <= |text|
      ensures exn == if rangeStart <= at <= rangeEnd then NoThrow else ThrowOutOfRange
      ensures exn.NoThrow? <==> made != null
      ensures made != null ==> made.InRange() && made.it == at && made.text == text
      ensures made != null ==> made.rangeStart == rangeStart && made.rangeEnd == rangeEnd
    {
      if at < rangeStart || at > rangeEnd {
        return null, ThrowOutOfRange;
      }
      made := new Iterator(text, at, rangeStart, rangeEnd);
      exn := NoThrow;
    }

    method Deref() returns (cp: CodePoint, exn: Exn)
      requires InRange() && it < rangeEnd
      ensures match Classify(text[it..rangeEnd])
        case Good(c, _) => exn == NoThrow && cp == c
        case Bad(err) => exn == Thrown(err, text[it])
    {
      hide Classify;
      var temp;
      cp, temp, exn := Next(text, it, rangeEnd);
    }

    method Increment() returns (exn: Exn)
      requires InRange() && it < rangeEnd
      modifies this`it
      ensures InRange()
      ensures match Classify(text[old(it)..rangeEnd])
        case Good(_, n) => exn == NoThrow && it == old(it) + n
        case Bad(err) => exn == Thrown(err, text[old(it)]) && it == old(it)
    {
      hide Classify;
      var cp;
      cp, it, exn := Next(text, it, rangeEnd);
    }

    method Decrement() returns (exn: Exn)
      requires InRange()
      modifies this`it
      ensures InRange() && it <= old(it)
      ensures old(it) == rangeStart ==> exn == ThrowNotEnoughRoom
      ensures LastLead(text, rangeStart, old(it)) < rangeStart < old(it) ==>
        it == rangeStart && exn == ThrowInvalidUtf8(text[it])
      ensures LastLead(text, rangeStart, old(it)) >= rangeStart ==>
        && it == LastLead(text, rangeStart, old(it))
        && exn == match Classify(text[it..old(it)]) case Good(_, _) => NoThrow case Bad(err) => Thrown(err, text[it])
    {
      hide Classify, IsTrail;
      var cp;
      cp, it, exn := Prior(text, it, rangeStart);
    }

    /** Stepping forth over a character and back again changes nothing. */
    method ForthAndBack()
      requires InRange() && it < rangeEnd && Classify(text[it..rangeEnd]).Good?
      modifies this`it
      ensures it == old(it)
    {
      hide Classify, IsTrail, LastLead;
      PriorUndoesNext(text, rangeStart, it, rangeEnd);
      var forth := Increment();
      var back := Decrement();
    }
  }
}
