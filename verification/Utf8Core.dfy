/** core.h: decoding of one sequence over an iterator that is moved octet by octet, and the
    search for the first invalid sequence. An iterator is a position in a text. */
module Utf8Core {
  import opened Utf8Chars
  import opened Utf8Text

  /** Move to the next octet, which must be there and be a trail octet. */
  method IncreaseSafely(text: seq<Octet>, it0: nat, end: nat) returns (err: UtfError, it: nat)
    requires it0 < end <= |text|
    ensures it == it0 + 1
    ensures err.Utf8Ok? <==> it < end && IsTrail(text[it])
    ensures err.NotEnoughRoom? <==> it == end
    ensures err.IncompleteSequence? <==> it < end && !IsTrail(text[it])
  {
    it := it0 + 1;
    if it == end {
      return NotEnoughRoom, it;
    }
    if !IsTrail(text[it]) {
      return IncompleteSequence, it;
    }
    return Utf8Ok, it;
  }

  /** The trail octets before octet j are in order, and octet j is missing or wrong. */
  lemma TrailStops(s: seq<Octet>, n: nat, j: nat)
    requires 1 <= j < n && j <= |s| && AllTrails(s, 1, j)
    ensures j == |s| ==> TrailError(s, n) == NotEnoughRoom
    ensures j < |s| && !IsTrail(s[j]) ==> TrailError(s, n) == IncompleteSequence
  {
    hide IsTrail;
  }

  lemma TrailsComplete(s: seq<Octet>, n: nat)
    requires n <= |s| && AllTrails(s, 1, n)
    ensures TrailError(s, n) == Utf8Ok
  {
    hide IsTrail;
  }

  /** The octet at which reading a sequence of n octets breaks off: the first one that is missing or
      is no trail octet. */
  predicate BreaksAt(s: seq<Octet>, n: nat, j: nat) {
    1 <= j < n && j <= |s| && AllTrails(s, 1, j) && (j < |s| ==> !IsTrail(s[j]))
  }

  // What has been added up when j octets of a sequence of 3 or 4 were read.
  function Sum3(s: seq<Octet>, j: nat): CodePoint
    requires 1 <= j <= 2 && j <= |s|
  {
    if j == 1 then s[0] as CodePoint
    else (((s[0] as CodePoint) << 12) & 0xffff) + (((s[1] as CodePoint) << 6) & 0xfff)
  }

  function Sum4(s: seq<Octet>, j: nat): CodePoint
    requires 1 <= j <= 3 && j <= |s|
  {
    if j == 1 then s[0] as CodePoint
    else if j == 2 then (((s[0] as CodePoint) << 18) & 0x1fffff) + (((s[1] as CodePoint) << 12) & 0x3ffff)
    else (((s[0] as CodePoint) << 18) & 0x1fffff) + (((s[1] as CodePoint) << 12) & 0x3ffff)
         + (((s[2] as CodePoint) << 6) & 0xfff)
  }

  lemma SpellSlice(text: seq<Octet>, it: nat)
    ensures it + 1 <= |text| ==> Spell(text[it..it + 1]) == Spell1(text[it])
    ensures it + 2 <= |text| ==> Spell(text[it..it + 2]) == Spell2(text[it], text[it + 1])
    ensures it + 3 <= |text| ==> Spell(text[it..it + 3]) == Spell3(text[it], text[it + 1], text[it + 2])
    ensures it + 4 <= |text|
      ==> Spell(text[it..it + 4]) == Spell4(text[it], text[it + 1], text[it + 2], text[it + 3])
  {
    hide Spell1, Spell2, Spell3, Spell4;
  }

  method GetSequence1(text: seq<Octet>, it0: nat, end: nat) returns (err: UtfError, it: nat, cp: CodePoint)
    requires it0 <= end <= |text|
    ensures err == if it0 == end then NotEnoughRoom else TrailError(text[it0..end], 1)
    ensures it == it0 && (err.Utf8Ok? ==> cp == Spell(text[it0..it0 + 1]))
  {
    it, cp := it0, 0;
    if it == end {
      return NotEnoughRoom, it, cp;
    }
    cp := text[it] as CodePoint;
    return Utf8Ok, it, cp;
  }

  method GetSequence2(text: seq<Octet>, it0: nat, end: nat) returns (err: UtfError, it: nat, cp: CodePoint)
    requires it0 <= end <= |text|
    ensures err == if it0 == end then NotEnoughRoom else TrailError(text[it0..end], 2)
    ensures err.Utf8Ok? ==> it == it0 + 1 && cp == Spell(text[it0..it0 + 2])
    ensures !err.Utf8Ok? && it0 < end ==>
      it0 < it <= end && BreaksAt(text[it0..end], 2, it - it0) && cp == text[it0] as CodePoint
    ensures it0 == end ==> it == it0
  {
    hide IsTrail, TrailError, Spell;
    ghost var s := text[it0..end];
    SpellSlice(text, it0);
    it, cp := it0, 0;
    if it == end {
      return NotEnoughRoom, it, cp;
    }
    cp := text[it] as CodePoint;
    err, it := IncreaseSafely(text, it, end);
    TrailStops(s, 2, 1);
    if !err.Utf8Ok? {
      return;
    }
    TrailsComplete(s, 2);
    cp := ((cp << 6) & 0x7ff) + ((text[it] as CodePoint) & 0x3f);
  }

  method GetSequence3(text: seq<Octet>, it0: nat, end: nat) returns (err: UtfError, it: nat, cp: CodePoint)
    requires it0 <= end <= |text|
    ensures err == if it0 == end then NotEnoughRoom else TrailError(text[it0..end], 3)
    ensures err.Utf8Ok? ==> it == it0 + 2 && cp == Spell(text[it0..it0 + 3])
    ensures !err.Utf8Ok? && it0 < end ==>
      it0 < it <= end && BreaksAt(text[it0..end], 3, it - it0) && cp == Sum3(text[it0..end], it - it0)
    ensures it0 == end ==> it == it0
  {
    hide IsTrail, TrailError, Spell;
    ghost var s := text[it0..end];
    SpellSlice(text, it0);
    it, cp := it0, 0;
    if it == end {
      return NotEnoughRoom, it, cp;
    }
    cp := text[it] as CodePoint;
    err, it := IncreaseSafely(text, it, end);
    TrailStops(s, 3, 1);
    if !err.Utf8Ok? {
      return;
    }
    cp := ((cp << 12) & 0xffff) + (((text[it] as CodePoint) << 6) & 0xfff);
    err, it := IncreaseSafely(text, it, end);
    TrailStops(s, 3, 2);
    if !err.Utf8Ok? {
      return;
    }
    TrailsComplete(s, 3);
    cp := cp + ((text[it] as CodePoint) & 0x3f);
  }

  method GetSequence4(text: seq<Octet>, it0: nat, end: nat) returns (err: UtfError, it: nat, cp: CodePoint)
    requires it0 <= end <= |text|
    ensures err == if it0 == end then NotEnoughRoom else TrailError(text[it0..end], 4)
    ensures err.Utf8Ok? ==> it == it0 + 3 && cp == Spell(text[it0..it0 + 4])
    ensures !err.Utf8Ok? && it0 < end ==>
      it0 < it <= end && BreaksAt(text[it0..end], 4, it - it0) && cp == Sum4(text[it0..end], it - it0)
    ensures it0 == end ==> it == it0
  {
    hide IsTrail, TrailError, Spell;
    ghost var s := text[it0..end];
    SpellSlice(text, it0);
    it, cp := it0, 0;
    if it == end {
      return NotEnoughRoom, it, cp;
    }
    cp := text[it] as CodePoint;
    err, it := IncreaseSafely(text, it, end);
    TrailStops(s, 4, 1);
    if !err.Utf8Ok? {
      return;
    }
    cp := ((cp << 18) & 0x1fffff) + (((text[it] as CodePoint) << 12) & 0x3ffff);
    err, it := IncreaseSafely(text, it, end);
    TrailStops(s, 4, 2);
    if !err.Utf8Ok? {
      return;
    }
    cp := cp + (((text[it] as CodePoint) << 6) & 0xfff);
    err, it := IncreaseSafely(text, it, end);
    TrailStops(s, 4, 3);
    if !err.Utf8Ok? {
      return;
    }
    TrailsComplete(s, 4);
    cp := cp + ((text[it] as CodePoint) & 0x3f);
  }

  /** Decode one sequence. On success the iterator moves behind it and the code point is set;
      on every error both stay as they were. */
  method ValidateNext(text: seq<Octet>, it0: nat, end: nat, code0: CodePoint)
    returns (err: UtfError, it: nat, code: CodePoint)
    requires it0 < end <= |text|
    ensures match Classify(text[it0..end])
      case Good(cp, n) => err == Utf8Ok && it == it0 + n && code == cp
      case Bad(e) => err == e && it == it0 && code == code0
  {
    hide SequenceLength, TrailError, Spell, IsCodePointValid, IsOverlong;
    it, code := it0, code0;
    var cp: CodePoint := 0;
    var length := SequenceLength(text[it]);
    err := Utf8Ok;
    if length == 0 {
      return InvalidLead, it, code;
    } else if length == 1 {
      err, it, cp := GetSequence1(text, it, end);
    } else if length == 2 {
      err, it, cp := GetSequence2(text, it, end);
    } else if length == 3 {
      err, it, cp := GetSequence3(text, it, end);
    } else {
      err, it, cp := GetSequence4(text, it, end);
    }
    SequenceFits(text, it0, end, length);
    if err.Utf8Ok? {
      if IsCodePointValid(cp) {
        if !IsOverlong(cp, length) {
          return Utf8Ok, it + 1, cp;
        } else {
          err := OverlongSequence;
        }
      } else {
        err := InvalidCodePoint;
      }
    }
    it := it0;
  }

  lemma SequenceFits(text: seq<Octet>, it: nat, end: nat, n: nat)
    requires it < end <= |text|
    ensures TrailError(text[it..end], n) == Utf8Ok ==> n <= end - it && text[it..end][..n] == text[it..it + n]
  {
  }

  /** The end of the longest valid prefix of [start, end). */
  method FindInvalid(text: seq<Octet>, start: nat, end: nat) returns (result: nat)
    requires start <= end <= |text|
    ensures result == start + Scan(text[start..end]).used
  {
    hide Classify;
    result := start;
    while result != end
      invariant start <= result <= end
      invariant result + Scan(text[result..end]).used == start + Scan(text[start..end]).used
      decreases end - result
    {
      var err, ignored;
      ghost var was := result;
      err, result, ignored := ValidateNext(text, result, end, 0);
      if err != Utf8Ok {
        return;
      }
      assert text[was..end][result - was..] == text[result..end];
    }
  }

  method IsValid(text: seq<Octet>, start: nat, end: nat) returns (b: bool)
    requires start <= end <= |text|
    ensures b <==> Valid(text[start..end])
  {
    var stop := FindInvalid(text, start, end);
    ScanUsesAll(text[start..end]);
    b := stop == end;
  }
}
