/** What is wrong with ill-formed text, octet by octet: which error the decoder reports, which
    exception a loop of `next` ends with, and how far one replacement mark reaches. */
module Utf8Errors {
  import opened Utf8Chars
  import opened Utf8Text
  import opened Utf8Checked

  /** How many octets a lead octet announces; 0 for an octet that leads nothing. */
  function Announced(b: Octet): (n: nat) {
    if b <= 0x7f then 1 else if 0xc0 <= b <= 0xdf then 2
    else if 0xe0 <= b <= 0xef then 3 else if 0xf0 <= b <= 0xf7 then 4 else 0
  }

  lemma LengthIsAnnounced(b: Octet)
    ensures SequenceLength(b) == Announced(b)
  {
  }

  lemma TrailIsTail(b: Octet)
    ensures IsTrail(b) <==> 0x80 <= b <= 0xbf
  {
  }

  /** The octets between 1 and hi are in the range 0x80 to 0xbf. */
  predicate Tails(s: seq<Octet>, hi: nat)
    requires hi <= |s|
  {
    forall j :: 1 <= j < hi ==> 0x80 <= s[j] <= 0xbf
  }

  /** The text starts with all the octets that its first octet announces. */
  predicate Complete(s: seq<Octet>)
    requires s != []
  {
    1 <= Announced(s[0]) <= |s| && Tails(s, Announced(s[0]))
  }

  /** A complete sequence that spells a surrogate, or something beyond 0x10ffff. A surrogate can
      also be spelled with an octet too many. */
  predicate SpellsNone(s: seq<Octet>)
    requires s != [] && Complete(s)
  {
    || (s[0] == 0xed && 0xa0 <= s[1]) || (s[0] == 0xf0 && s[1] == 0x8d && 0xa0 <= s[2])
    || (s[0] == 0xf4 && 0x90 <= s[1]) || 0xf5 <= s[0]
  }

  /** A complete sequence with an octet more than its code point needs. */
  predicate SpellsLong(s: seq<Octet>)
    requires s != [] && Complete(s)
  {
    s[0] == 0xc0 || s[0] == 0xc1 || (s[0] == 0xe0 && s[1] <= 0x9f) || (s[0] == 0xf0 && s[1] <= 0x8f)
  }

  /** The verdict on the front of a text, read off its octets. */
  lemma VerdictByOctets(s: seq<Octet>)
    requires s != []
    ensures Classify(s) == Bad(InvalidLead) <==> 0x80 <= s[0] <= 0xbf || 0xf8 <= s[0]
    ensures Classify(s) == Bad(NotEnoughRoom) <==> |s| < Announced(s[0]) && Tails(s, |s|)
    ensures Classify(s) == Bad(IncompleteSequence) <==>
      !Tails(s, if Announced(s[0]) <= |s| then Announced(s[0]) else |s|)
    ensures Classify(s) == Bad(InvalidCodePoint) <==> Complete(s) && SpellsNone(s)
    ensures Classify(s) == Bad(OverlongSequence) <==> Complete(s) && SpellsLong(s) && !SpellsNone(s)
    ensures Classify(s).Good? <==> Complete(s) && !SpellsLong(s) && !SpellsNone(s)
  {
    LengthIsAnnounced(s[0]);
    var n := Announced(s[0]);
    var m := if n <= |s| then n else |s|;
    if Complete(s) { Wrong(s); }
    hide SequenceLength, IsTrail, Spell, IsCodePointValid, IsOverlong, SpellsNone, SpellsLong;
  }

  lemma Wrong(s: seq<Octet>)
    requires s != [] && Complete(s)
    ensures var n := Announced(s[0]);
      && (!IsCodePointValid(Spell(s[..n])) <==> SpellsNone(s))
      && (IsOverlong(Spell(s[..n]), n) <==> SpellsLong(s))
  {
    var n := Announced(s[0]);
    if n == 1 { Wrong1(s[0]); } else if n == 2 { Wrong2(s[0], s[1]); }
    else if n == 3 { Wrong3(s[0], s[1], s[2]); } else { Wrong4(s[0], s[1], s[2], s[3]); }
    hide IsCodePointValid, IsOverlong, Spell1, Spell2, Spell3, Spell4;
  }

  lemma Wrong1(b0: Octet)
    requires b0 <= 0x7f
    ensures IsCodePointValid(Spell1(b0)) && !IsOverlong(Spell1(b0), 1)
  {
  }

  lemma Wrong2(b0: Octet, b1: Octet)
    requires 0xc0 <= b0 <= 0xdf && Tail(b1)
    ensures IsCodePointValid(Spell2(b0, b1)) && (IsOverlong(Spell2(b0, b1), 2) <==> b0 <= 0xc1)
  {
  }

  lemma Wrong3(b0: Octet, b1: Octet, b2: Octet)
    requires 0xe0 <= b0 <= 0xef && Tail(b1) && Tail(b2)
    ensures !IsCodePointValid(Spell3(b0, b1, b2)) <==> b0 == 0xed && 0xa0 <= b1
    ensures IsOverlong(Spell3(b0, b1, b2), 3) <==> b0 == 0xe0 && b1 <= 0x9f
  {
  }

  lemma Wrong4(b0: Octet, b1: Octet, b2: Octet, b3: Octet)
    requires 0xf0 <= b0 <= 0xf7 && Tail(b1) && Tail(b2) && Tail(b3)
    ensures !IsCodePointValid(Spell4(b0, b1, b2, b3)) <==>
      ((b0 == 0xf0 && b1 == 0x8d && 0xa0 <= b2) || (b0 == 0xf4 && 0x90 <= b1) || 0xf5 <= b0)
    ensures IsOverlong(Spell4(b0, b1, b2, b3), 4) <==> b0 == 0xf0 && b1 <= 0x8f
  {
  }

  /** A scan stops at the first sequence with an error, and `next` throws there. */
  lemma {:induction false} ScanStops(s: seq<Octet>)
    ensures Scan(s).used < |s| ==> Classify(s[Scan(s).used..]).Bad?
    ensures var k := Scan(s).used;
      ScanExn(s) == if k == |s| then NoThrow else Thrown(Classify(s[k..]).err, s[k])
    decreases |s|
  {
    hide Classify, Thrown;
    if s != [] {
      if Classify(s).Good? {
        var n := Classify(s).n;
        ScanStops(s[n..]);
        assert s[n..][Scan(s[n..]).used..] == s[n + Scan(s[n..]).used..];
      } else {
        assert s[0..] == s;
      }
    }
  }

  /** The exception that ends a loop of `next`, read off the octets behind the longest valid
      prefix: none at the end, not_enough_room if the text ends inside a sequence, an invalid
      code point for a sequence that spells none, and the octet at fault for all the rest. */
  lemma ThrownByOctets(s: seq<Octet>, t: seq<Octet>)
    requires t == s[Scan(s).used..]
    ensures t == [] ==> ScanExn(s) == NoThrow
    ensures t != [] && |t| < Announced(t[0]) && Tails(t, |t|) <==> ScanExn(s) == ThrowNotEnoughRoom
    ensures t != [] && Complete(t) && SpellsNone(t) ==> ScanExn(s) == ThrowInvalidCodePoint(0)
    ensures t != [] && Complete(t) && !SpellsNone(t) ==> SpellsLong(t) && ScanExn(s) == ThrowInvalidUtf8(t[0])
    ensures t != [] && !Complete(t) && !(|t| < Announced(t[0]) && Tails(t, |t|)) ==> ScanExn(s) == ThrowInvalidUtf8(t[0])
  {
    ScanStops(s);
    hide Scan, ScanExn, Classify, Announced, SpellsNone, SpellsLong, Tails;
    if t != [] {
      VerdictByOctets(t);
      assert ScanExn(s) == Thrown(Classify(t).err, t[0]);
    }
  }

  /** How far one replacement mark reaches: an octet that leads nothing gets a mark of its own,
      and any other error has one mark for its first octet and all trail octets behind it. */
  lemma OneMark(s: seq<Octet>, mark: CodePoint, k: nat)
    requires IsCodePointValid(mark) && s != [] && 1 <= k <= |s|
    requires Classify(s).Bad? && !Classify(s).err.NotEnoughRoom?
    requires if 0x80 <= s[0] <= 0xbf || 0xf8 <= s[0] then k == 1
             else Tails(s, k) && (k < |s| ==> s[k] < 0x80 || 0xbf < s[k])
    ensures Repair(s, mark) == (Encode(mark) + Repair(s[k..], mark).0, Repair(s[k..], mark).1)
  {
    VerdictByOctets(s);
    if k < |s| { TrailIsTail(s[k]); }
    hide Classify, IsCodePointValid, Encode, Tails, IsTrail;
    if !Classify(s).err.InvalidLead? { SkipsTo(s, 1, k); }
  }

  lemma {:induction false} SkipsTo(s: seq<Octet>, i: nat, k: nat)
    requires i <= k <= |s| && AllTrails(s, i, k) && (k < |s| ==> !IsTrail(s[k]))
    ensures SkipTrails(s, i) == k
    decreases k - i
  {
    hide IsTrail;
    if i < k { SkipsTo(s, i + 1, k); }
  }

  /** An overlong zero, c0 80, is replaced by one mark, and each of two stray octets 80 by its own. */
  lemma MarkExample()
    ensures Repair([0xc0, 0x80], 0xfffd) == ([0xef, 0xbf, 0xbd], NoThrow)
    ensures Repair([0x80, 0x80], 0xfffd) == ([0xef, 0xbf, 0xbd, 0xef, 0xbf, 0xbd], NoThrow)
  {
    MarkedOnce([0xc0, 0x80]);
    MarkedOnce([0x80]);
    MarkedTwice([0x80, 0x80]);
  }

  lemma MarkedOnce(s: seq<Octet>)
    requires s == [0xc0, 0x80] || s == [0x80]
    ensures Repair(s, 0xfffd) == ([0xef, 0xbf, 0xbd], NoThrow)
  {
    VerdictByOctets(s);
    hide Classify, Encode, IsCodePointValid;
    OneMark(s, 0xfffd, |s|);
    assert s[|s|..] == [];
    RepairStops([], 0xfffd);
    hide Repair;
    assert [0xef as Octet, 0xbf, 0xbd] + [] == [0xef, 0xbf, 0xbd];
  }

  lemma MarkedTwice(s: seq<Octet>)
    requires s == [0x80, 0x80]
    ensures Repair(s, 0xfffd) == ([0xef, 0xbf, 0xbd, 0xef, 0xbf, 0xbd], NoThrow)
  {
    VerdictByOctets(s);
    hide Classify, Encode, IsCodePointValid, Repair;
    OneMark(s, 0xfffd, 1);
    assert s[1..] == [0x80];
    MarkedOnce([0x80]);
    assert [0xef as Octet, 0xbf, 0xbd] + [0xef, 0xbf, 0xbd] == [0xef, 0xbf, 0xbd, 0xef, 0xbf, 0xbd];
  }
}
