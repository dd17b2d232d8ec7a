/** UTF-16 text: surrogate arithmetic as the library does it, with RFC 2781 as reference. */
module Utf16Text {
  import opened Basics
  import opened Utf8Chars
  import opened Utf8Text

  type Unit = bv16

  const LEAD_SURROGATE_MIN: bv32 := 0xd800
  const TRAIL_SURROGATE_MIN: bv32 := 0xdc00
  const LEAD_OFFSET: bv32 := LEAD_SURROGATE_MIN - (0x10000 >> 10)
  /** Wraps around: 0x10000 - (0xd800 << 10) - 0xdc00 is negative. */
  const SURROGATE_OFFSET: bv32 := 0x10000 - (LEAD_SURROGATE_MIN << 10) - TRAIL_SURROGATE_MIN

  predicate IsLeadSurrogate(u: Unit) { 0xd800 <= u <= 0xdbff }
  predicate IsTrailSurrogate(u: Unit) { 0xdc00 <= u <= 0xdfff }

  function Low16(x: bv32): Unit { (x & 0xffff) as Unit }

  function Join(lead: Unit, trail: Unit): CodePoint {
    ((lead as bv32) << 10) + (trail as bv32) + SURROGATE_OFFSET
  }

  function LeadOf(cp: CodePoint): Unit { Low16((cp >> 10) + LEAD_OFFSET) }
  function TrailOf(cp: CodePoint): Unit { Low16((cp & 0x3ff) + TRAIL_SURROGATE_MIN) }

  function Encode16(cp: CodePoint): (u: seq<Unit>)
    ensures 1 <= |u| <= 2
  {
    if cp > 0xffff then [LeadOf(cp), TrailOf(cp)] else [Low16(cp)]
  }

  /** Section 2.1 of RFC 2781: twenty bits, ten in each word. */
  lemma SplitIsRfc(cp: CodePoint)
    requires 0xffff < cp <= 0x10ffff
    ensures LeadOf(cp) as bv32 == 0xd800 | ((cp - 0x10000) >> 10)
    ensures TrailOf(cp) as bv32 == 0xdc00 | ((cp - 0x10000) & 0x3ff)
  {
  }

  /** Section 2.2 of RFC 2781: the ten low bits of each word, plus 0x10000. */
  lemma JoinIsRfc(lead: Unit, trail: Unit)
    requires IsLeadSurrogate(lead) && IsTrailSurrogate(trail)
    ensures Join(lead, trail) == ((((lead as bv32) & 0x3ff) << 10) | ((trail as bv32) & 0x3ff)) + 0x10000
  {
  }

  lemma JoinSplits(lead: Unit, trail: Unit)
    requires IsLeadSurrogate(lead) && IsTrailSurrogate(trail)
    ensures var cp := Join(lead, trail);
      0xffff < cp && IsCodePointValid(cp) && LeadOf(cp) == lead && TrailOf(cp) == trail
  {
  }

  lemma SplitJoins(cp: CodePoint)
    requires cp > 0xffff && IsCodePointValid(cp)
    ensures IsLeadSurrogate(LeadOf(cp)) && IsTrailSurrogate(TrailOf(cp))
    ensures Join(LeadOf(cp), TrailOf(cp)) == cp
  {
    assert IsLeadSurrogate(LeadOf(cp));
    SplitIsRfc(cp);
    JoinIsRfc(LeadOf(cp), TrailOf(cp));
    hide LeadOf, TrailOf, Join, IsLeadSurrogate, IsTrailSurrogate;
  }

  lemma PlainUnit(u: Unit)
    requires !IsLeadSurrogate(u) && !IsTrailSurrogate(u)
    ensures u as CodePoint <= 0xffff && IsCodePointValid(u as CodePoint) && Low16(u as CodePoint) == u
  {
  }

  lemma PlainCodePoint(cp: CodePoint)
    requires cp <= 0xffff && IsCodePointValid(cp)
    ensures !IsLeadSurrogate(Low16(cp)) && !IsTrailSurrogate(Low16(cp)) && Low16(cp) as CodePoint == cp
  {
    PlainRange(Low16(cp));
    hide Low16;
  }

  lemma PlainRange(u: Unit)
    requires !IsSurrogate(u as CodePoint)
    ensures !IsLeadSurrogate(u) && !IsTrailSurrogate(u)
  {
  }

  /** The code points before the first ill-formed place, and the word blamed for it. */
  datatype Scanned16 = Scanned16(cps: seq<CodePoint>, bad: Option<Unit>)

  function Scan16(u: seq<Unit>): Scanned16
    decreases |u|
  {
    if u == [] then Scanned16([], None)
    else if IsLeadSurrogate(u[0]) then
      if |u| == 1 then Scanned16([], Some(u[0]))
      else if !IsTrailSurrogate(u[1]) then Scanned16([], Some(u[1]))
      else
        var rest := Scan16(u[2..]);
        Scanned16([Join(u[0], u[1])] + rest.cps, rest.bad)
    else if IsTrailSurrogate(u[0]) then Scanned16([], Some(u[0]))
    else
      var rest := Scan16(u[1..]);
      Scanned16([u[0] as CodePoint] + rest.cps, rest.bad)
  }

  function EncodeAll16(cps: seq<CodePoint>): seq<Unit> {
    if cps == [] then [] else Encode16(cps[0]) + EncodeAll16(cps[1..])
  }

  /** Well-formed UTF-16, stated of the places of a text: surrogates come in pairs. */
  predicate SurrogatesPaired(u: seq<Unit>) { forall i :: 0 <= i < |u| ==> PairedAt(u, i) }

  predicate PairedAt(u: seq<Unit>, i: int)
    requires 0 <= i < |u|
  {
    && (IsLeadSurrogate(u[i]) ==> i + 1 < |u| && IsTrailSurrogate(u[i + 1]))
    && (IsTrailSurrogate(u[i]) ==> 0 < i && IsLeadSurrogate(u[i - 1]))
  }

  /** The scan succeeds exactly on well-formed text. */
  lemma {:induction false} ScansIffPaired(u: seq<Unit>)
    ensures Scan16(u).bad.None? <==> SurrogatesPaired(u)
    decreases |u|
  {
    hide Join, IsLeadSurrogate, IsTrailSurrogate;
    if u != [] {
      NotBoth(u[0]);
      if IsLeadSurrogate(u[0]) {
        if |u| >= 2 && IsTrailSurrogate(u[1]) {
          NotBoth(u[1]);
          ScansIffPaired(u[2..]);
          PairedBehind(u, 2);
        } else {
          assert !PairedAt(u, 0);
        }
      } else if IsTrailSurrogate(u[0]) {
        assert !PairedAt(u, 0);
      } else {
        ScansIffPaired(u[1..]);
        PairedBehind(u, 1);
      }
    }
  }

  lemma PairedBehind(u: seq<Unit>, n: nat)
    requires 1 <= n <= 2 && n <= |u| && !IsLeadSurrogate(u[n - 1])
    requires if n == 2 then IsLeadSurrogate(u[0]) && !IsTrailSurrogate(u[0]) && IsTrailSurrogate(u[1])
      else !IsTrailSurrogate(u[0])
    ensures SurrogatesPaired(u) <==> SurrogatesPaired(u[n..])
  {
    hide IsLeadSurrogate, IsTrailSurrogate;
    var v := u[n..];
    forall i | 0 <= i < |v| ensures PairedAt(v, i) <==> PairedAt(u, i + n) {
      assert v[i] == u[i + n];
      assert i + 1 < |v| ==> v[i + 1] == u[i + 1 + n];
      assert 0 < i ==> v[i - 1] == u[i - 1 + n];
    }
    if SurrogatesPaired(u) {
      forall i | 0 <= i < |v| ensures PairedAt(v, i) { assert PairedAt(u, i + n); }
    }
    if SurrogatesPaired(v) {
      forall j | 0 <= j < |u| ensures PairedAt(u, j) {
        if n <= j { assert PairedAt(v, j - n); }
      }
    }
  }

  lemma NotBoth(u: Unit)
    ensures !(IsLeadSurrogate(u) && IsTrailSurrogate(u))
  {
  }

  /** Every code point the scan finds is valid, also in ill-formed text. */
  lemma {:induction false} Scan16AllValid(u: seq<Unit>)
    ensures AllValid(Scan16(u).cps)
    decreases |u|
  {
    if u != [] {
      if IsLeadSurrogate(u[0]) {
        if |u| >= 2 && IsTrailSurrogate(u[1]) {
          JoinSplits(u[0], u[1]);
          Scan16AllValid(u[2..]);
        }
      } else if !IsTrailSurrogate(u[0]) {
        PlainUnit(u[0]);
        Scan16AllValid(u[1..]);
      }
    }
    hide Join, IsCodePointValid, IsLeadSurrogate, IsTrailSurrogate, LeadOf, TrailOf, Low16;
  }

  lemma EncodeAll16Front(cp: CodePoint, cps: seq<CodePoint>)
    ensures EncodeAll16([cp] + cps) == Encode16(cp) + EncodeAll16(cps)
  {
    assert ([cp] + cps)[1..] == cps;
  }

  lemma EncodesPair(lead: Unit, trail: Unit)
    requires IsLeadSurrogate(lead) && IsTrailSurrogate(trail)
    ensures Encode16(Join(lead, trail)) == [lead, trail]
  {
    hide Join, LeadOf, TrailOf;
    JoinSplits(lead, trail);
  }

  lemma EncodesPlain(u: Unit)
    requires !IsLeadSurrogate(u) && !IsTrailSurrogate(u)
    ensures Encode16(u as CodePoint) == [u]
  {
    hide Low16;
    PlainUnit(u);
  }

  /** Decoding undoes encoding, for every sequence of valid code points. */
  lemma {:induction false} Decode16Encodes(cps: seq<CodePoint>)
    requires AllValid(cps)
    ensures Scan16(EncodeAll16(cps)) == Scanned16(cps, None)
    decreases |cps|
  {
    if cps != [] {
      var cp, rest := cps[0], EncodeAll16(cps[1..]);
      Decode16Encodes(cps[1..]);
      assert [cp] + cps[1..] == cps;
      if cp > 0xffff {
        SplitJoins(cp);
        assert ([LeadOf(cp), TrailOf(cp)] + rest)[2..] == rest;
      } else {
        PlainCodePoint(cp);
        assert ([Low16(cp)] + rest)[1..] == rest;
      }
    }
    hide Join, IsCodePointValid, IsLeadSurrogate, IsTrailSurrogate, LeadOf, TrailOf, Low16;
  }

  /** What was read before the first ill-formed place, and the word blamed there: the one behind a
      lead surrogate if that is no trail surrogate, and else the surrogate itself. */
  ghost predicate StopsAt(u: seq<Unit>, k: nat) {
    && k <= |u| && u[..k] == EncodeAll16(Scan16(u).cps)
    && (k == |u| ==> Scan16(u).bad == None)
    && (k < |u| ==> 0xd800 <= u[k] <= 0xdfff)
    && (k < |u| && u[k] <= 0xdbff && k + 1 < |u| ==>
        Scan16(u).bad == Some(u[k + 1]) && (u[k + 1] < 0xdc00 || 0xdfff < u[k + 1]))
    && (k < |u| && (u[k] >= 0xdc00 || k + 1 == |u|) ==> Scan16(u).bad == Some(u[k]))
  }

  lemma {:induction false} BlamesWord(u: seq<Unit>)
    ensures StopsAt(u, |EncodeAll16(Scan16(u).cps)|)
    decreases |u|
  {
    hide *;
    if u == [] || (IsLeadSurrogate(u[0]) && (|u| == 1 || !IsTrailSurrogate(u[1]))) || IsTrailSurrogate(u[0]) {
      StopsNow(u);
    } else if IsLeadSurrogate(u[0]) {
      PairStep(u);
      BlamesWord(u[2..]);
      StopsBehind(u, 2, Join(u[0], u[1]));
    } else {
      PlainStep(u);
      BlamesWord(u[1..]);
      StopsBehind(u, 1, u[0] as CodePoint);
    }
  }

  lemma StopsNow(u: seq<Unit>)
    requires u == [] || (IsLeadSurrogate(u[0]) && (|u| == 1 || !IsTrailSurrogate(u[1]))) || IsTrailSurrogate(u[0])
    ensures StopsAt(u, |EncodeAll16(Scan16(u).cps)|)
  {
    hide Join, Encode16;
    assert u[..0] == [];
  }

  lemma PairStep(u: seq<Unit>)
    requires |u| >= 2 && IsLeadSurrogate(u[0]) && IsTrailSurrogate(u[1])
    ensures Encode16(Join(u[0], u[1])) == u[..2]
    ensures Scan16(u) == Scanned16([Join(u[0], u[1])] + Scan16(u[2..]).cps, Scan16(u[2..]).bad)
  {
    hide Join, Encode16, IsLeadSurrogate, IsTrailSurrogate;
    EncodesPair(u[0], u[1]);
  }

  lemma PlainStep(u: seq<Unit>)
    requires u != [] && !IsLeadSurrogate(u[0]) && !IsTrailSurrogate(u[0])
    ensures Encode16(u[0] as CodePoint) == u[..1]
    ensures Scan16(u) == Scanned16([u[0] as CodePoint] + Scan16(u[1..]).cps, Scan16(u[1..]).bad)
  {
    hide Join, Encode16, IsLeadSurrogate, IsTrailSurrogate;
    EncodesPlain(u[0]);
  }

  lemma StopsBehind(u: seq<Unit>, n: nat, cp: CodePoint)
    requires 1 <= n <= |u| && Encode16(cp) == u[..n]
    requires Scan16(u) == Scanned16([cp] + Scan16(u[n..]).cps, Scan16(u[n..]).bad)
    requires StopsAt(u[n..], |EncodeAll16(Scan16(u[n..]).cps)|)
    ensures StopsAt(u, |EncodeAll16(Scan16(u).cps)|)
  {
    hide Scan16, Encode16, EncodeAll16;
    var v := u[n..];
    var k := |EncodeAll16(Scan16(v).cps)|;
    EncodeAll16Front(cp, Scan16(v).cps);
    assert u[..n + k] == u[..n] + v[..k];
    assert k < |v| ==> v[k] == u[n + k];
    assert k + 1 < |v| ==> v[k + 1] == u[n + k + 1];
  }

  /** Encoding undoes decoding, on every well-formed text. */
  lemma Encode16Decodes(u: seq<Unit>)
    requires Scan16(u).bad.None?
    ensures EncodeAll16(Scan16(u).cps) == u
  {
    hide Scan16, EncodeAll16;
    BlamesWord(u);
    assert u[..|u|] == u;
  }

  // ---------------------------------------------------------------------------------
  // The transcoders undo each other.

  lemma ToUtf8AndBack(u: seq<Unit>)
    requires SurrogatesPaired(u)
    ensures var s := EncodeAll(Scan16(u).cps); Valid(s) && EncodeAll16(Scan(s).cps) == u
  {
    ScansIffPaired(u);
    Scan16AllValid(u);
    DecodeEncodes(Scan16(u).cps);
    Encode16Decodes(u);
  }

  lemma ToUtf16AndBack(s: seq<Octet>)
    requires Valid(s)
    ensures var u := EncodeAll16(Scan(s).cps); SurrogatesPaired(u) && EncodeAll(Scan16(u).cps) == s
  {
    ScanAllValid(s);
    Decode16Encodes(Scan(s).cps);
    ScansIffPaired(EncodeAll16(Scan(s).cps));
    EncodeDecodes(s);
  }
}
