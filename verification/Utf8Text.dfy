/** What a run of the decoder over a text finds: the verdict on the sequence at the front,
    and the scan that repeats it. The loops of the library are proved against this scan. */
module Utf8Text {
  import opened Utf8Chars

  datatype Verdict = Good(cp: CodePoint, n: nat) | Bad(err: UtfError)

  predicate AllTrails(s: seq<Octet>, lo: int, hi: int)
    requires 0 <= lo && hi <= |s|
  {
    forall j :: lo <= j < hi ==> IsTrail(s[j])
  }

  /** What is wrong with the trail octets of a sequence of n octets at the front of a text. */
  function TrailError(s: seq<Octet>, n: nat): UtfError {
    if !AllTrails(s, 1, if n <= |s| then n else |s|) then IncompleteSequence
    else if |s| < n then NotEnoughRoom else Utf8Ok
  }

  /** The verdict on the sequence at the front of a text. */
  function Classify(s: seq<Octet>): (v: Verdict)
    requires s != []
    ensures v.Good? ==> 1 <= v.n <= |s|
    ensures v.Bad? ==> !v.err.Utf8Ok?
  {
    var n := SequenceLength(s[0]);
    if n == 0 then Bad(InvalidLead)
    else if TrailError(s, n) != Utf8Ok then Bad(TrailError(s, n))
    else if !IsCodePointValid(Spell(s[..n])) then Bad(InvalidCodePoint)
    else if IsOverlong(Spell(s[..n]), n) then Bad(OverlongSequence)
    else Good(Spell(s[..n]), n)
  }

  /** A text is accepted at the front exactly when it starts with a character, and the
      code point found is the one whose encoding stands there. */
  lemma ClassifyIsSyntax(s: seq<Octet>)
    requires s != []
    ensures Classify(s).Good? <==> exists n :: 1 <= n <= |s| && IsChar(s[..n])
    ensures Classify(s).Good? ==>
      var Good(cp, n) := Classify(s);
      IsChar(s[..n]) && IsCodePointValid(cp) && Encode(cp) == s[..n]
  {
    hide SequenceLength, IsTrail, Spell, IsCodePointValid, IsOverlong, Encode, IsChar;
    if Classify(s).Good? {
      var n := Classify(s).n;
      AcceptsIsChar(s[..n]);
      SpellEncodes(s[..n]);
    }
    forall n | 1 <= n <= |s| && IsChar(s[..n]) ensures Classify(s).Good? {
      AcceptsIsChar(s[..n]);
    }
  }

  /** An accepted sequence does not depend on what follows it. */
  lemma ClassifyPrefix(s: seq<Octet>, t: seq<Octet>)
    requires s != [] && Classify(s).Good?
    ensures Classify(s + t) == Classify(s)
  {
    hide SequenceLength, IsTrail, Spell, IsCodePointValid, IsOverlong;
    var n := Classify(s).n;
    assert (s + t)[..n] == s[..n] && (s + t)[0] == s[0];
    assert forall j :: 1 <= j < n ==> (s + t)[j] == s[j];
  }

  lemma ClassifyEncoded(cp: CodePoint, t: seq<Octet>)
    requires IsCodePointValid(cp)
    ensures Classify(Encode(cp) + t) == Good(cp, |Encode(cp)|)
  {
    hide SequenceLength, IsTrail, Spell, IsCodePointValid, IsOverlong, Encode, IsChar;
    var s := Encode(cp);
    EncodeSpells(cp);
    AcceptsIsChar(s);
    assert s[..|s|] == s;
    assert Classify(s) == Good(cp, |s|);
    ClassifyPrefix(s, t);
  }

  /** The code points of the longest valid prefix, its length, and what stopped the scan. */
  datatype Scanned = Scanned(cps: seq<CodePoint>, used: nat, err: UtfError)

  function Scan(s: seq<Octet>): (r: Scanned)
    ensures r.used <= |s|
    decreases |s|
  {
    if s == [] then Scanned([], 0, Utf8Ok) else
    match Classify(s)
    case Good(cp, n) =>
      var rest := Scan(s[n..]);
      Scanned([cp] + rest.cps, n + rest.used, rest.err)
    case Bad(err) => Scanned([], 0, err)
  }

  predicate Valid(s: seq<Octet>) { Scan(s).err.Utf8Ok? }

  predicate AllValid(cps: seq<CodePoint>) { forall i :: 0 <= i < |cps| ==> IsCodePointValid(cps[i]) }

  function EncodeAll(cps: seq<CodePoint>): seq<Octet> {
    if cps == [] then [] else Encode(cps[0]) + EncodeAll(cps[1..])
  }

  lemma EncodeAllFront(cp: CodePoint, cps: seq<CodePoint>)
    ensures EncodeAll([cp] + cps) == Encode(cp) + EncodeAll(cps)
  {
    assert ([cp] + cps)[1..] == cps;
  }

  /** The scan used up the encoding of what it found. */
  lemma {:induction false} ScanEncodes(s: seq<Octet>)
    ensures s[..Scan(s).used] == EncodeAll(Scan(s).cps)
    decreases |s|
  {
    hide Classify, IsCodePointValid, Encode, IsChar, Width;
    if s != [] && Classify(s).Good? {
      ClassifyIsSyntax(s);
      var Good(cp, n) := Classify(s);
      ScanEncodes(s[n..]);
      var rest := Scan(s[n..]);
      EncodeAllFront(cp, rest.cps);
      assert s[..n + rest.used] == s[..n] + s[n..][..rest.used];
    }
  }

  lemma {:induction false} ScanAllValid(s: seq<Octet>)
    ensures AllValid(Scan(s).cps)
    decreases |s|
  {
    hide Classify, IsCodePointValid, Encode;
    if s != [] && Classify(s).Good? {
      ClassifyIsSyntax(s);
      ScanAllValid(s[Classify(s).n..]);
    }
  }

  /** A text is valid exactly when the scan uses all of it. */
  lemma {:induction false} ScanUsesAll(s: seq<Octet>)
    ensures Valid(s) <==> Scan(s).used == |s|
    decreases |s|
  {
    hide Classify;
    if s != [] && Classify(s).Good? {
      ScanUsesAll(s[Classify(s).n..]);
    }
  }

  /** Decoding undoes encoding, for every sequence of valid code points. */
  lemma {:induction false} DecodeEncodes(cps: seq<CodePoint>)
    requires AllValid(cps)
    ensures Scan(EncodeAll(cps)) == Scanned(cps, |EncodeAll(cps)|, Utf8Ok)
    decreases |cps|
  {
    hide Classify, IsCodePointValid, Encode;
    if cps != [] {
      var cp, rest := cps[0], EncodeAll(cps[1..]);
      ClassifyEncoded(cp, rest);
      DecodeEncodes(cps[1..]);
      assert (Encode(cp) + rest)[|Encode(cp)|..] == rest;
      assert [cp] + cps[1..] == cps;
    }
  }

  /** Encoding undoes decoding, on every valid text. */
  lemma EncodeDecodes(s: seq<Octet>)
    requires Valid(s)
    ensures EncodeAll(Scan(s).cps) == s
  {
    ScanEncodes(s);
    ScanUsesAll(s);
    assert s[..|s|] == s;
  }

  /** A text is split into code points in only one way. */
  lemma UniqueSplit(cps: seq<CodePoint>, other: seq<CodePoint>)
    requires AllValid(cps) && AllValid(other) && EncodeAll(cps) == EncodeAll(other)
    ensures cps == other
  {
    DecodeEncodes(cps);
    DecodeEncodes(other);
  }

  /** Scanning is compositional behind a valid text. */
  lemma {:induction false} ScanAppend(s: seq<Octet>, t: seq<Octet>)
    requires Valid(s)
    ensures Scan(s + t) == Scanned(Scan(s).cps + Scan(t).cps, |s| + Scan(t).used, Scan(t).err)
    decreases |s|
  {
    hide Classify;
    if s == [] {
      assert s + t == t;
      assert Scan(s).cps + Scan(t).cps == Scan(t).cps;
    } else {
      var Good(cp, n) := Classify(s);
      ClassifyPrefix(s, t);
      assert (s + t)[n..] == s[n..] + t;
      ScanAppend(s[n..], t);
      assert [cp] + Scan(s[n..]).cps + Scan(t).cps == [cp] + (Scan(s[n..]).cps + Scan(t).cps);
    }
  }

  lemma ValidAppend(s: seq<Octet>, t: seq<Octet>)
    requires Valid(s)
    ensures Valid(s + t) <==> Valid(t)
  {
    ScanAppend(s, t);
  }

  /** What the scan used is the longest valid prefix. */
  lemma {:induction false} LongestPrefix(s: seq<Octet>, k: nat)
    requires k <= |s|
    ensures Valid(s[..Scan(s).used])
    ensures Valid(s[..k]) ==> k <= Scan(s).used
    decreases |s|
  {
    hide Classify;
    var u := Scan(s).used;
    if s != [] {
      if Classify(s).Good? {
        var n := Classify(s).n;
        GoodPrefix(s, n, u);
        LongestPrefix(s[n..], if k < n then 0 else k - n);
        assert s[..u][n..] == s[n..][..u - n];
        if n <= k {
          GoodPrefix(s, n, k);
          assert s[..k][n..] == s[n..][..k - n];
        }
      } else if 0 < k && Classify(s[..k]).Good? {
        assert s[..k] + s[k..] == s;
        ClassifyPrefix(s[..k], s[k..]);
      }
    }
  }

  /** Cutting a text behind its first accepted sequence leaves the verdict as it was. */
  lemma GoodPrefix(s: seq<Octet>, n: nat, k: nat)
    requires s != [] && Classify(s).Good? && Classify(s).n == n <= k <= |s|
    ensures Classify(s[..k]) == Classify(s)
  {
    ClassifyIsSyntax(s);
    ClassifyIsSyntax(s[..k]);
    assert s[..k][..n] == s[..n];
    ClassifyPrefix(s[..k], s[k..]);
    assert s[..k] + s[k..] == s;
    hide Classify, IsChar, Encode;
  }
}
