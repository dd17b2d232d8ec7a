/** The randomised two-block search. Outputs of steps are picked at random and shaped,
    message words are solved for by running steps backwards, the remaining steps are run
    forwards, and every step is filtered. */
module Md5Search {
  import opened Basics
  import opened Md5Spec
  import opened Md5Path
  import opened Md5Account
  import opened Md5Forms

  const LOOP_11: nat := 300
  const LOOP_12: nat := 0x20000000
  const LOOP_21: nat := 1000
  const LOOP_22: nat := 0x4000000

  /** Found: all tests passed. Missed: a test failed. Dry: no random outcome is left. */
  datatype Outcome = Found | Missed | Dry

  predicate Avoids(m: bv32, mask: bv32) { m & mask == 0 }

  lemma FlipClears(v: bv32, m: bv32, clear: bv32, copy: bv32)
    requires Avoids(m, clear) && BitsCleared(v, clear, copy)
    ensures BitsCleared(FlipBits(v, m), clear, copy)
  {
  }

  lemma FlipSets(v: bv32, m: bv32, set1: bv32, clear: bv32, copy: bv32)
    requires Avoids(m, set1) && BitsSet(v, set1, clear, copy)
    ensures BitsSet(FlipBits(v, m), set1, clear, copy)
  {
  }

  /** A flip that avoids the set and cleared bits keeps the shape of an output. */
  lemma FlipKeepsShape(p: Masks, v: Word, prev: Word, m: bv32)
    requires HasShape(p, v, prev) && p.copy == 0
    requires Avoids(m, p.set1) && Avoids(m, p.clear)
    ensures HasShape(p, Flipped(v, m), prev)
  {
    FlipClears(v.bits, m, p.clear, p.copy);
    FlipSets(v.bits, m, p.set1, p.clear, p.copy);
    hide Avoids, FlipBits, BitsCleared, BitsSet, BitsCopied;
  }

  // Which steps read which message word: word k is written while these are kept.
  lemma LowWords(k: int)
    requires 2 <= k <= 5
    ensures forall i :: 1 <= i <= k || 7 <= i <= 20 ==> !ReadsWord(i, k)
  {
  }

  lemma FirstWords(k: int)
    requires 0 <= k < 16
    ensures forall i :: 1 <= i <= 16 && i - 1 != k ==> !ReadsWord(i, k)
  {
  }

  lemma ZeroAndOne()
    ensures forall i :: 7 <= i <= 19 ==> !ReadsWord(i, 0)
    ensures forall i :: 7 <= i <= 16 ==> !ReadsWord(i, 1)
  {
  }

  lemma XorZero(v: Word, w: Word)
    ensures Xor(v, w) == 0 <==> v == w
  {
    XorZeroBits(v.bits, w.bits);
    assert Xor(v, w) == v.bits ^ w.bits;
  }

  lemma XorZeroBits(v: bv32, w: bv32)
    ensures v ^ w == 0 <==> v == w
  {
  }

  /** Where the two messages have the same outputs and the same word, one solved step is both. */
  lemma SameSolved(s: Lanes, i: int)
    requires Sized(s) && 1 <= i <= 64 && Solved1(s.c0, s.x0, i)
    requires forall j | i - 4 <= j <= i && -3 <= j :: At(s.c0, j) == At(s.c1, j)
    requires s.x0[WordIndex(i - 1)] == s.x1[WordIndex(i - 1)]
    ensures Solved1(s.c1, s.x1, i)
  {
    hide StepOut, WordIndex;
    assert At(s.c0, i) == At(s.c1, i);
    assert At(s.c0, i - 1) == At(s.c1, i - 1) && At(s.c0, i - 2) == At(s.c1, i - 2);
    assert At(s.c0, i - 3) == At(s.c1, i - 3) && At(s.c0, i - 4) == At(s.c1, i - 4);
  }

  class Search {
    const iv: Regs
    const Q0: array<Word>
    const Q1: array<Word>
    const X0: array<Word>
    const X1: array<Word>
    /** A0, B0, C0, D0 and A1, B1, C1, D1: the chaining values between the blocks. */
    var mid0: Regs
    var mid1: Regs
    /** The outcomes of random() still to come. */
    var tape: seq<bv32>

    ghost predicate Arrays() {
      && Q0.Length == Q1.Length == 65 && X0.Length == X1.Length == 32
      && Q0 != Q1 && X0 != X1 && Q0 != X0 && Q0 != X1 && Q1 != X0 && Q1 != X1
    }

    constructor (start: Regs, outcomes: seq<bv32>)
      ensures Arrays() && iv == start && tape == outcomes
      ensures fresh(Q0) && fresh(Q1) && fresh(X0) && fresh(X1)
    {
      iv, tape, mid0, mid1 := start, outcomes, start, start;
      Q0 := new Word[65](_ => W(0));
      Q1 := new Word[65](_ => W(0));
      X0 := new Word[32](_ => W(0));
      X1 := new Word[32](_ => W(0));
    }

    function Base(second: bool): (off: int) { if second then 16 else 0 }

    /** The two chains and blocks that block 1 or block 2 of the search works on. */
    ghost function Of(second: bool): (s: Lanes)
      requires Arrays()
      reads this`mid0, this`mid1, Q0, Q1, X0, X1
      ensures Sized(s)
    {
      Lanes(Chain(if second then mid0 else iv, Q0[..]), Chain(if second then mid1 else iv, Q1[..]),
            X0[Base(second)..Base(second) + 16], X1[Base(second)..Base(second) + 16])
    }

    /** Output i of a chain: an array cell or a register of the chaining value. */
    static function Cell(h: Regs, q: array<Word>, i: int): (w: Word)
      requires q.Length == 65 && -3 <= i <= 64
      reads q
      ensures w == At(Chain(h, q[..]), i)
    {
      if i >= 1 then q[i] else if i == 0 then h.b else if i == -1 then h.c
      else if i == -2 then h.d else h.a
    }

    method Random() returns (r: bv32)
      requires tape != []
      modifies this`tape
      ensures r == old(tape)[0] && tape == old(tape)[1..]
    {
      r := tape[0];
      tape := tape[1..];
    }

    /** Pick and shape the outputs of step i. */
    method Pick(second: bool, i: int)
      requires Arrays() && tape != [] && IsPick(second, i)
      modifies Q0, Q1, this`tape
      ensures tape == old(tape)[1..]
      ensures OutputChanged(old(Of(second)), Of(second), i)
      ensures Q0[i] == Shaped(PickMasks(second, i), old(tape)[0], old(Q0[i - 1]))
      ensures OnPath1(second, Of(second).c0, Of(second).c1, i)
    {
      hide PickMasks, HasShape, Shaped, Less, PickForm, OtherForm;
      var r := Random();
      ShapedHasShape(PickMasks(second, i), r, Q0[i - 1]);
      FormsAgree(second, i, r, Q0[i - 1], PickForm(second, i, r, Q0[i - 1]));
      Q0[i] := PickForm(second, i, r, Q0[i - 1]);
      Q1[i] := OtherForm(second, i, Q0[i]);
    }

    /** Flip one free bit of an output that was picked before: Q[20] of block 1, Q[16] of block 2. */
    method Flip(second: bool, i: int)
      requires Arrays() && tape != [] && i == (if second then 16 else 20)
      requires OnPath1(second, Of(second).c0, Of(second).c1, i)
      modifies Q0, Q1, this`tape
      ensures tape == old(tape)[1..]
      ensures OutputChanged(old(Of(second)), Of(second), i)
      ensures Q0[i] == Flipped(old(Q0[i]), if second then FlipBit2(old(tape)[0]) else FlipBit1(old(tape)[0]))
      ensures OnPath1(second, Of(second).c0, Of(second).c1, i)
    {
      hide HasShape, Flipped, Less, FlipBit1, FlipBit2, PickForm, OtherForm;
      var r := Random();
      var m := if second then FlipBit2(r) else FlipBit1(r);
      var p := PickMasks(second, i);
      FlipAvoids(second, r);
      FlipKeepsShape(p, Q0[i], Q0[i - 1], m);
      FormsAgree(second, i, r, Q0[i - 1], Flipped(Q0[i], m));
      Q0[i] := Flipped(Q0[i], m);
      Q1[i] := OtherForm(second, i, Q0[i]);
    }

    /** Solve for the message words that make both chains output what they hold at step i. */
    method Solve(second: bool, i: int) returns (ok: bool)
      requires Arrays() && 1 <= i <= 64
      modifies X0, X1
      ensures WordChanged(old(Of(second)), Of(second), WordIndex(i - 1))
      ensures Solved(Of(second), i, i)
      ensures ok <==> Paired1(Of(second), WordIndex(i - 1))
      ensures !second ==> X0[16..] == old(X0[16..]) && X1[16..] == old(X1[16..])
      ensures second ==> X0[..16] == old(X0[..16]) && X1[..16] == old(X1[..16])
    {
      hide WordIndex, StepOut, Backward, Xor, WordDelta;
      var k := WordIndex(i - 1);
      SolveLane(if second then mid0 else iv, Q0, X0, Base(second), i);
      SolveLane(if second then mid1 else iv, Q1, X1, Base(second), i);
      ok := Xor(X0[Base(second) + k], X1[Base(second) + k]) == WordDelta(k);
    }

    static method SolveLane(h: Regs, q: array<Word>, x: array<Word>, off: int, i: int)
      requires q.Length == 65 && x.Length == 32 && q != x && 1 <= i <= 64 && (off == 0 || off == 16)
      modifies x
      ensures x[..] == old(x[..])[off + WordIndex(i - 1) := x[off + WordIndex(i - 1)]]
      ensures Solved1(Chain(h, q[..]), x[off..off + 16], i)
    {
      hide WordIndex, StepOut, Backward, RowOf, T, Shift;
      RowsAgree(i - 1);
      var a, b, c, d := Cell(h, q, i - 4), Cell(h, q, i - 1), Cell(h, q, i - 2), Cell(h, q, i - 3);
      var w := Backward(i - 1, a, b, c, d, q[i]);
      StepInverse(i - 1, a, b, c, d, w, q[i]);
      x[off + RowOf(i - 1).word] := w;
    }

    /** Run step i forwards in both chains, with its tests. Block 1 also forms its chaining
        value register by register in steps 61 to 64. */
    method Run(second: bool, i: int) returns (ok: bool)
      requires Arrays() && 3 <= i <= 64 && !IsPick(second, i)
      modifies Q0, Q1, this`mid0, this`mid1
      ensures OutputChanged(old(Of(second)), Of(second), i)
      ensures ok <==> TestOutput(second, Of(second).c0, i) && TestDifference(second, Of(second).c0, Of(second).c1, i)
      ensures ok ==> Solved(Of(second), i, i) && OnPath1(second, Of(second).c0, Of(second).c1, i)
      ensures !ok ==> Failed(second, Of(second), i)
      ensures !ok || second || i < 61 || (mid0 == Into(old(mid0), iv, Q0[i], i) && mid1 == Into(old(mid1), iv, Q1[i], i))
      ensures second ==> mid0 == old(mid0) && mid1 == old(mid1)
    {
      hide WordIndex, StepOut, Forward, TestForm, TestOutput, TestDifference, Add;
      RunLane(if second then mid0 else iv, Q0, X0, Base(second), i);
      if !second && i >= 61 {
        mid0 := Into(mid0, iv, Q0[i], i);
      }
      TestFormIsTest(second, Chain(if second then mid0 else iv, Q0[..]), i);
      if !TestForm(second, Chain(if second then mid0 else iv, Q0[..]), i) {
        return false;
      }
      RunLane(if second then mid1 else iv, Q1, X1, Base(second), i);
      if !second && i >= 61 {
        mid1 := Into(mid1, iv, Q1[i], i);
      }
      ok := TestDifference(second, Chain(if second then mid0 else iv, Q0[..]),
                           Chain(if second then mid1 else iv, Q1[..]), i);
    }

    static method RunLane(h: Regs, q: array<Word>, x: array<Word>, off: int, i: int)
      requires q.Length == 65 && x.Length == 32 && q != x && 1 <= i <= 64 && (off == 0 || off == 16)
      modifies q
      ensures q[..] == old(q[..])[i := q[i]]
      ensures Solved1(Chain(h, q[..]), x[off..off + 16], i)
    {
      hide WordIndex, StepOut, Forward, RowOf, T, Shift;
      RowsAgree(i - 1);
      var a, b, c, d := Cell(h, q, i - 4), Cell(h, q, i - 1), Cell(h, q, i - 2), Cell(h, q, i - 3);
      var w := x[off + RowOf(i - 1).word];
      ForwardIsStep(i - 1, a, b, c, d, w);
      q[i] := Forward(i - 1, a, b, c, d, w);
    }

    /** Steps 1 and 2 of block 1: the messages still agree, so the outputs are copied. */
    method RunCopy(i: int)
      requires Arrays() && 1 <= i <= 2
      requires X0[WordIndex(i - 1)] == X1[WordIndex(i - 1)]
      requires i == 2 ==> Q0[1] == Q1[1]
      modifies Q0, Q1
      ensures OutputChanged(old(Of(false)), Of(false), i) && Q0[i] == Q1[i]
      ensures Solved(Of(false), i, i)
    {
      hide WordIndex, StepOut;
      RunLane(iv, Q0, X0, 0, i);
      Q1[i] := Q0[i];
      SameSolved(Of(false), i);
    }

    /** Steps 3 and 4 of block 1: the outputs agree, so the word is solved once and copied. */
    method SolveCopy(i: int)
      requires Arrays() && 3 <= i <= 4
      requires forall j | 1 <= j <= i :: Q0[j] == Q1[j]
      modifies X0, X1
      ensures WordChanged(old(Of(false)), Of(false), WordIndex(i - 1))
      ensures X0[WordIndex(i - 1)] == X1[WordIndex(i - 1)]
      ensures Solved(Of(false), i, i)
      ensures X0[16..] == old(X0[16..]) && X1[16..] == old(X1[16..])
    {
      hide WordIndex, StepOut;
      SolveLane(iv, Q0, X0, 0, i);
      X1[WordIndex(i - 1)] := X0[WordIndex(i - 1)];
      SameSolved(Of(false), i);
    }

    /** Run one more step forwards. The steps from `base` and the tests from `path` that were in
        order before stay in order; `summed` says that the chaining value is formed as well. */
    method RunNext(second: bool, i: int, ghost base: int, ghost path: int, ghost summed: bool) returns (ok: bool)
      requires Arrays() && 3 <= i <= 64 && !IsPick(second, i) && 1 <= base <= i && 1 <= path <= i
      requires Solved(Of(second), base, i - 1) && OnPath(second, Of(second), path, i - 1)
      requires summed ==> !second && SummedTo(mid0, Of(false).c0, i - 1) && SummedTo(mid1, Of(false).c1, i - 1)
      modifies Q0, Q1, this`mid0, this`mid1
      ensures OutputChanged(old(Of(second)), Of(second), i)
      ensures Solved(Of(second), base, i - 1) && OnPath(second, Of(second), path, i - 1)
      ensures ok ==> Solved(Of(second), base, i) && OnPath(second, Of(second), path, i)
      ensures !ok ==> StopsAt(second, Of(second), base, path, i)
      ensures second ==> mid0 == old(mid0) && mid1 == old(mid1)
      ensures ok && summed ==> SummedTo(mid0, Of(false).c0, i) && SummedTo(mid1, Of(false).c1, i)
    {
      hide Solved1, OnPath1, IsPick, Unread, Into, SummedTo, TestOutput, TestDifference, Failed;
      ghost var before := Of(second);
      ok := Run(second, i);
      KeepSolved(before, Of(second), i, base, i - 1);
      LaterUnread(second, path, i);
      KeepOnPath(second, before, Of(second), i, path, i - 1);
      if ok && summed {
        IntoSums(old(mid0), mid0, before.c0, Of(false).c0, i);
        IntoSums(old(mid1), mid1, before.c1, Of(false).c1, i);
      }
    }

    /** Run steps lo to hi forwards, giving up at the first test that fails. */
    method RunAll(second: bool, lo: int, hi: int, ghost base: int, ghost path: int) returns (ok: bool)
      requires Arrays() && 3 <= lo <= hi <= 64 && 1 <= base <= lo && 1 <= path <= lo
      requires forall i :: lo <= i <= hi ==> !IsPick(second, i)
      requires Solved(Of(second), base, lo - 1) && OnPath(second, Of(second), path, lo - 1)
      modifies Q0, Q1, this`mid0, this`mid1
      ensures Of(second).x0 == old(Of(second).x0) && Of(second).x1 == old(Of(second).x1)
      ensures Solved(Of(second), base, lo - 1) && OnPath(second, Of(second), path, lo - 1)
      ensures ok ==> Solved(Of(second), base, hi) && OnPath(second, Of(second), path, hi)
      ensures !ok ==> Stopped(second, Of(second), base, path, lo, hi)
      ensures second ==> mid0 == old(mid0) && mid1 == old(mid1)
      ensures forall j :: 0 <= j < lo ==> Q0[j] == old(Q0[j]) && Q1[j] == old(Q1[j])
      ensures ok && !second && lo <= 61 ==> SummedTo(mid0, Of(false).c0, hi) && SummedTo(mid1, Of(false).c1, hi)
    {
      hide Solved1, OnPath1, IsPick, Into, SummedTo, StopsAt;
      NothingSummed(mid0, Of(second).c0, lo - 1);
      NothingSummed(mid1, Of(second).c1, lo - 1);
      var i := lo;
      while i <= hi
        invariant lo <= i <= hi + 1
        invariant Of(second).x0 == old(Of(second).x0) && Of(second).x1 == old(Of(second).x1)
        invariant Solved(Of(second), base, i - 1) && OnPath(second, Of(second), path, i - 1)
        invariant second ==> mid0 == old(mid0) && mid1 == old(mid1)
        invariant forall j :: 0 <= j < lo ==> Q0[j] == old(Q0[j]) && Q1[j] == old(Q1[j])
        invariant !second && lo <= 61 ==> SummedTo(mid0, Of(false).c0, i - 1) && SummedTo(mid1, Of(false).c1, i - 1)
      {
        ok := RunNext(second, i, base, path, !second && lo <= 61);
        if !ok {
          return false;
        }
        i := i + 1;
      }
      ok := true;
    }

    /** What the first loop of block 1 leaves for the later ones. */
    ghost predicate Head1()
      requires Arrays()
      reads this`mid0, this`mid1, Q0, Q1, X0, X1
    {
      var s := Of(false);
      Solved(s, 7, 16) && OnPath(false, s, 3, 16) && Paired(s, 6, 15)
    }

    /** Head1, and steps 17 to 20 with the words they use; Q[20] is what LOOP_12 varies. */
    ghost predicate Head2()
      requires Arrays()
      reads this`mid0, this`mid1, Q0, Q1, X0, X1
    {
      var s := Of(false);
      Solved(s, 7, 19) && OnPath(false, s, 3, 20) && Paired(s, 6, 15) && Paired(s, 1, 1)
    }

    /** Steps 7 to i of block 1 are solved, and outputs 3 to i picked. */
    ghost predicate Picked(i: int)
      requires Arrays()
      reads this`mid0, this`mid1, Q0, Q1, X0, X1
    {
      var s := Of(false);
      Solved(s, 7, i) && OnPath(false, s, 3, i) && Paired(s, 6, i - 1)
    }

    /** The outputs of one more step, and from step 7 on the word that it needs. */
    method PickOne(i: int) returns (ok: bool)
      requires Arrays() && 3 <= i <= 16 && tape != [] && Picked(i - 1)
      modifies Q0, Q1, X0, X1, this`tape
      ensures tape == old(tape)[1..] && (ok ==> Picked(i))
      ensures Tried(First(i), old(Of(false)), Try(old(tape)[0], Of(false), ok))
    {
      hide Solved1, OnPath1, Paired1, Unread, WordIndex, ReadsWord, PickMasks, Shaped;
      ghost var s0 := Of(false);
      Pick(false, i);
      ghost var s1 := Of(false);
      KeepSolved(s0, s1, i, 7, i - 1);
      LaterUnread(false, 3, i);
      KeepOnPath(false, s0, s1, i, 3, i - 1);
      KeepPairedOutput(s0, s1, 6, i - 2);
      ok := true;
      if i >= 7 {
        ok := Solve(false, i);
        FirstIndex(i);
        FirstWords(i - 1);
        KeepSolvedWord(s1, Of(false), i - 1, 7, i - 1);
        KeepPaired(s1, Of(false), i - 1, 6, i - 2);
      }
    }

    /** An account of the random words taken so far for a block: with those to come they are all. */
    ghost predicate Booked(second: bool, log: seq<Try>, all: seq<bv32>)
      requires Arrays()
      reads this`mid0, this`mid1, this`tape, Q0, Q1, X0, X1
    {
      && Accounts(second, Of(second).c0.h, Of(second).c1.h, log) && Taken(log) + tape == all
      && (log != [] ==> Last(log).end == Of(second))
    }

    /** One pass of the first loop of block 1: outputs 3 to 16, words 6 to 15. */
    method PickFirst(ghost past: seq<Try>, ghost all: seq<bv32>) returns (r: Outcome, ghost log: seq<Try>)
      requires Arrays() && Booked(false, past, all) && SpotAfter(false, past) == First(3)
      modifies Q0, Q1, X0, X1, this`tape
      ensures Booked(false, log, all)
      ensures r.Found? ==> Head1() && SpotAfter(false, log) == Round11(0)
      ensures r.Missed? ==> SpotAfter(false, log) == First(3)
      ensures r.Dry? ==> tape == [] && SpotAfter(false, log).First?
      ensures r.Dry? || |tape| < |old(tape)|
    {
      hide Solved1, OnPath1, Paired1, Tried, Accounts, SpotAfter, Taken;
      var i := 3;
      log := past;
      while i <= 16
        invariant 3 <= i <= 17 && Picked(i - 1)
        invariant Booked(false, log, all) && SpotAfter(false, log) == if i <= 16 then First(i) else Round11(0)
        invariant |tape| <= |old(tape)| && (i > 3 ==> |tape| < |old(tape)|)
      {
        if tape == [] {
          return Dry, log;
        }
        ghost var before, words := Of(false), tape;
        var ok := PickOne(i);
        ghost var t := Try(words[0], Of(false), ok);
        BookDraw(false, iv, iv, log, before, t, words, all);
        log := log + [t];
        if !ok {
          return Missed, log;
        }
        i := i + 1;
      }
      r := Found;
    }

    /** Outputs 1 and 2 and words 2 to 5, from words 0 and 1: text that LOOP_11 and LOOP_12 share. */
    method Fill() returns (ok: bool)
      requires Arrays() && Head2() && Solved(Of(false), 20, 20) && Paired(Of(false), 0, 0)
      modifies Q0, Q1, X0, X1
      ensures Head2()
      ensures ok ==> Solved(Of(false), 1, 20) && OnPath(false, Of(false), 1, 20) && Paired(Of(false), 0, 15)
      ensures !ok ==> Mismatched(Of(false), 5) || Mismatched(Of(false), 6)
      ensures forall j :: 3 <= j <= 64 ==> Q0[j] == old(Q0[j])
      ensures X0[16..] == old(X0[16..]) && X1[16..] == old(X1[16..])
    {
      hide Solved1, OnPath1, Paired1;
      FillOutputs();
      ok := FillWords();
    }

    method FillOutputs()
      requires Arrays() && Filled(Of(false), 0)
      modifies Q0, Q1
      ensures Filled(Of(false), 2)
      ensures Q0[1] == Q1[1] && Q0[2] == Q1[2]
      ensures forall j :: 3 <= j <= 64 ==> Q0[j] == old(Q0[j])
    {
      hide Solved1, OnPath1, Paired1, WordIndex, Filled;
      FirstIndex(1); FirstIndex(2);
      ghost var s0 := Of(false);
      FilledWords(s0, 0);
      RunCopy(1);
      ghost var s1 := Of(false);
      FillOutput(s0, s1, 1);
      FilledWords(s1, 1);
      RunCopy(2);
      FillOutput(s1, Of(false), 2);
    }

    method FillWords() returns (ok: bool)
      requires Arrays() && Filled(Of(false), 2) && Q0[1] == Q1[1] && Q0[2] == Q1[2]
      modifies X0, X1
      ensures Head2()
      ensures ok ==> Filled(Of(false), 6) && OnPath(false, Of(false), 1, 2)
      ensures !ok ==> Mismatched(Of(false), 5) || Mismatched(Of(false), 6)
      ensures X0[16..] == old(X0[16..]) && X1[16..] == old(X1[16..])
    {
      hide Solved1, OnPath1, Paired1, WordIndex, Filled;
      CopiesOnPath(Of(false));
      FillCopies();
      FirstIndex(5); FirstIndex(6);
      ghost var s4 := Of(false);
      ok := Solve(false, 5);
      ghost var s5 := Of(false);
      FillWord(s4, s5, 5);
      if ok {
        ok := Solve(false, 6);
        FillWord(s5, Of(false), 6);
      }
    }

    /** Words 2 and 3. */
    method FillCopies()
      requires Arrays() && Filled(Of(false), 2) && Q0[1] == Q1[1] && Q0[2] == Q1[2]
      modifies X0, X1
      ensures Filled(Of(false), 4)
      ensures X0[16..] == old(X0[16..]) && X1[16..] == old(X1[16..])
    {
      hide Solved1, OnPath1, Paired1, WordIndex, Filled;
      FirstIndex(3); FirstIndex(4);
      ghost var s2 := Of(false);
      FilledOutputs(s2, 2);
      SolveCopy(3);
      ghost var s3 := Of(false);
      SameWordsPaired(s3, 2);
      FillWord(s2, s3, 3);
      SolveCopy(4);
      SameWordsPaired(Of(false), 3);
      FillWord(s3, Of(false), 4);
    }

    /** Once Q[20] is set: solve word 0, fill in the steps before, run on to step `hi`. */
    method Vary(hi: int) returns (ok: bool)
      requires Arrays() && Head2() && 21 <= hi <= 64
      modifies Q0, Q1, X0, X1, this`mid0, this`mid1
      ensures Head2()
      ensures ok ==> Passed(false, Of(false), hi)
      ensures !ok ==> VaryFails(Of(false), hi)
      ensures forall j :: 3 <= j <= 20 ==> Q0[j] == old(Q0[j])
      ensures ok ==> SummedTo(mid0, Of(false).c0, hi) && SummedTo(mid1, Of(false).c1, hi)
    {
      hide Solved1, OnPath1, Paired1, WordIndex, ReadsWord, PickMasks, IsPick, SummedTo;
      ghost var s0 := Of(false);
      LateIndices();
      ok := Solve(false, 20);
      ghost var s1 := Of(false);
      ZeroAndOne();
      KeepSolvedWord(s0, s1, 0, 7, 19);
      KeepPaired(s0, s1, 0, 6, 15);
      KeepPaired(s0, s1, 0, 1, 1);
      if ok {
        ok := Fill();
        ghost var s2 := Of(false);
        if ok {
          RunSteps(false, 21, hi);
          ok := RunAll(false, 21, hi, 1, 1);
          KeepPairedOutput(s2, Of(false), 0, 15);
        }
      }
    }

    /** The front part of a round of LOOP_11: pick output 17, solve word 1, run to 19. */
    method Try17(ghost n: nat) returns (ok: bool)
      requires Arrays() && Head1() && tape != []
      modifies Q0, Q1, X0, X1, this`mid0, this`mid1, this`tape
      ensures Head1() && tape == old(tape)[1..]
      ensures Tried(Round11(n), old(Of(false)), Try(old(tape)[0], Of(false), ok))
      ensures ok ==> Solved(Of(false), 7, 19) && OnPath(false, Of(false), 3, 19) && Paired(Of(false), 1, 1)
    {
      hide Solved1, OnPath1, Paired1, WordIndex, ReadsWord, PickMasks, IsPick;
      LateIndices();
      ghost var s0 := Of(false);
      Pick(false, 17);
      ghost var s1 := Of(false);
      HeadOutput(s0, s1, 17);
      ok := Solve(false, 17);
      ghost var s2 := Of(false);
      ZeroAndOne();
      KeepSolvedWord(s1, s2, 1, 7, 16);
      KeepPaired(s1, s2, 1, 6, 15);
      if ok {
        RunSteps(false, 18, 19);
        ok := RunAll(false, 18, 19, 7, 3);
        KeepPairedOutput(s2, Of(false), 1, 1);
        KeepPairedOutput(s2, Of(false), 6, 15);
      }
    }

    /** The rest of a round: pick output 20, and vary the first words up to step 27. */
    method Try20(ghost n: nat) returns (ok: bool)
      requires Arrays() && Head1() && tape != []
      requires Solved(Of(false), 7, 19) && OnPath(false, Of(false), 3, 19) && Paired(Of(false), 1, 1)
      modifies Q0, Q1, X0, X1, this`mid0, this`mid1, this`tape
      ensures Head2() && tape == old(tape)[1..]
      ensures Tried(Late11(n), old(Of(false)), Try(old(tape)[0], Of(false), ok))
    {
      hide Solved1, OnPath1, Paired1, WordIndex, ReadsWord, PickMasks, IsPick, Shaped, Passed, VaryFails;
      LateIndices();
      ghost var s0 := Of(false);
      Pick(false, 20);
      ghost var s1 := Of(false);
      HeadOutput(s0, s1, 20);
      KeepPairedOutput(s0, s1, 1, 1);
      ok := Vary(27);
    }

    /** One round of LOOP_11. */
    method Try11(ghost n: nat, ghost past: seq<Try>, ghost all: seq<bv32>) returns (r: Outcome, ghost log: seq<Try>)
      requires Arrays() && Head1() && tape != []
      requires Booked(false, past, all) && SpotAfter(false, past) == Round11(n)
      modifies Q0, Q1, X0, X1, this`mid0, this`mid1, this`tape
      ensures Head1() && Booked(false, log, all)
      ensures r.Found? ==> Head2() && SpotAfter(false, log) == Round12(0)
      ensures r.Missed? ==> SpotAfter(false, log) == if n + 1 < 300 then Round11(n + 1) else First(3)
      ensures r.Dry? ==> tape == [] && SpotAfter(false, log) == Late11(n)
      ensures |tape| < |old(tape)|
    {
      hide Solved1, OnPath1, Paired1, Tried, Accounts, SpotAfter, Taken;
      ghost var before, words := Of(false), tape;
      var ok := Try17(n);
      ghost var t := Try(words[0], Of(false), ok);
      BookDraw(false, iv, iv, past, before, t, words, all);
      log := past + [t];
      if !ok {
        return Missed, log;
      }
      if tape == [] {
        return Dry, log;
      }
      before, words := Of(false), tape;
      ok := Try20(n);
      t := Try(words[0], Of(false), ok);
      BookDraw(false, iv, iv, log, before, t, words, all);
      log := log + [t];
      r := if ok then Found else Missed;
    }

    /** One round of LOOP_12: flip a bit of output 20, and run all 64 steps. */
    method Try12(ghost n: nat) returns (ok: bool)
      requires Arrays() && Head2() && tape != []
      modifies Q0, Q1, X0, X1, this`mid0, this`mid1, this`tape
      ensures Head2() && tape == old(tape)[1..]
      ensures Tried(Round12(n), old(Of(false)), Try(old(tape)[0], Of(false), ok))
      ensures ok ==> Passed(false, Of(false), 64)
      ensures ok ==> mid0 == Compress(iv, X0[..16]) && mid1 == Compress(iv, X1[..16])
    {
      hide Solved1, OnPath1, Paired1, SummedTo, Compress, Flipped, FlipBit1, FlipBit2, VaryFails;
      ghost var s0 := Of(false);
      Flip(false, 20);
      FlipHead(s0, Of(false));
      ok := Vary(64);
      if ok {
        SumsAreCompress(mid0, Of(false).c0, Of(false).x0);
        SumsAreCompress(mid1, Of(false).c1, Of(false).x1);
      }
    }

    /** LOOP_12: vary one bit of Q[20] at a time until all 64 steps pass. */
    method Loop12(ghost past: seq<Try>, ghost all: seq<bv32>) returns (r: Outcome, ghost log: seq<Try>)
      requires Arrays() && Head2() && Booked(false, past, all) && SpotAfter(false, past) == Round12(0)
      modifies Q0, Q1, X0, X1, this`mid0, this`mid1, this`tape
      ensures Booked(false, log, all)
      ensures r.Found? ==> SpotAfter(false, log) == Done1 && Passed(false, Of(false), 64)
      ensures r.Found? ==> mid0 == Compress(iv, X0[..16]) && mid1 == Compress(iv, X1[..16])
      ensures r.Missed? ==> SpotAfter(false, log) == First(3)
      ensures r.Dry? ==> tape == [] && SpotAfter(false, log).Round12?
      ensures |tape| <= |old(tape)|
    {
      hide Solved1, OnPath1, Paired1, Compress, Passed, Tried, Accounts, SpotAfter, Taken;
      var i := 0;
      log := past;
      while i < LOOP_12
        invariant 0 <= i <= LOOP_12 && Head2() && |tape| <= |old(tape)|
        invariant Booked(false, log, all) && SpotAfter(false, log) == if i < LOOP_12 then Round12(i) else First(3)
      {
        if tape == [] {
          return Dry, log;
        }
        ghost var before, words := Of(false), tape;
        var ok := Try12(i);
        ghost var t := Try(words[0], Of(false), ok);
        BookDraw(false, iv, iv, log, before, t, words, all);
        log := log + [t];
        if ok {
          return Found, log;
        }
        i := i + 1;
      }
      r := Missed;
    }

    /** The first block. It gives up only when the random outcomes run out, and its account says of
        each of them which try it was for, and how that ended. */
    method Block1() returns (found: bool, ghost log: seq<Try>)
      requires Arrays()
      modifies Q0, Q1, X0, X1, this`mid0, this`mid1, this`tape
      ensures found ==> Passed(false, Of(false), 64)
      ensures found ==> mid0 == Compress(iv, X0[..16]) && mid1 == Compress(iv, X1[..16])
      ensures !found ==> tape == []
      ensures Accounts(false, iv, iv, log) && Taken(log) + tape == old(tape)
      ensures found <==> SpotAfter(false, log) == Done1
      ensures found ==> log != [] && Last(log).end == Of(false)
    {
      hide Solved1, OnPath1, Paired1, Compress, Passed, Accounts, Taken;
      ghost var all := tape;
      log := [];
      NoTries(false, iv, iv);
      hide SpotAfter;
      while true
        invariant Booked(false, log, all) && SpotAfter(false, log) == First(3)
        decreases |tape|
      {
        label Again:
        var r;
        r, log := PickFirst(log, all);
        if r.Dry? {
          return false, log;
        }
        if r.Missed? {
          continue;
        }
        var i := 0;
        while i < LOOP_11
          invariant 0 <= i <= LOOP_11 && Head1() && |tape| < |old@Again(tape)|
          invariant Booked(false, log, all) && SpotAfter(false, log) == if i < LOOP_11 then Round11(i) else First(3)
        {
          if tape == [] {
            return false, log;
          }
          r, log := Try11(i, log, all);
          if r.Dry? {
            return false, log;
          }
          if r.Found? {
            break;
          }
          i := i + 1;
        }
        if i >= LOOP_11 {
          continue;
        }
        r, log := Loop12(log, all);
        if !r.Missed? {
          return r.Found?, log;
        }
      }
    }

    /** The first n steps of block 2 are solved and shaped, with their words. */
    ghost predicate Head(n: int, shaped: int)
      requires Arrays()
      reads this`mid0, this`mid1, Q0, Q1, X0, X1
    {
      var s := Of(true);
      Solved(s, 1, n) && OnPath(true, s, 1, shaped) && Paired(s, 0, n - 1)
    }

    /** One try at step i of block 2: pick its outputs, or flip a bit of them, and solve for
        its word. */
    method TryPick(i: int, flip: bool) returns (ok: bool)
      requires Arrays() && tape != [] && 1 <= i <= 16 && Head(i - 1, i - 1)
      requires flip ==> i == 16 && Head(15, 16)
      modifies Q0, Q1, X0, X1, this`tape
      ensures Head(i - 1, i) && tape == old(tape)[1..]
      ensures Solved(Of(true), i, i) && (ok <==> Paired1(Of(true), i - 1))
      ensures ok ==> Head(i, i)
      ensures flip ==> Flips(true, old(Of(true)), Of(true), i, old(tape)[0])
      ensures !flip ==> Picks(true, old(Of(true)), Of(true), i, old(tape)[0])
      ensures X0[..16] == old(X0[..16]) && X1[..16] == old(X1[..16])
    {
      hide Solved1, OnPath1, Paired1, WordIndex, ReadsWord, PickMasks, Unread, Shaped, Flipped, FlipBit1, FlipBit2;
      FirstIndex(i);
      ghost var s0 := Of(true);
      if flip {
        Flip(true, i);
      } else {
        PicksOfBlock2(i);
        Pick(true, i);
      }
      ghost var s1 := Of(true);
      KeepSolved(s0, s1, i, 1, i - 1);
      LaterUnread(true, 1, i);
      KeepOnPath(true, s0, s1, i, 1, i - 1);
      KeepPairedOutput(s0, s1, 0, i - 2);
      ok := Solve(true, i);
      FirstWords(i - 1);
      KeepSolvedWord(s1, Of(true), i - 1, 1, i - 1);
      KeepPaired(s1, Of(true), i - 1, 0, i - 2);
    }

    /** One try for output i, up to 15. */
    method TrySecond(i: int, ghost n: nat) returns (ok: bool)
      requires Arrays() && tape != [] && 1 <= i <= 15 && Head(i - 1, i - 1)
      modifies Q0, Q1, X0, X1, this`tape
      ensures Head(i - 1, i - 1) && (ok ==> Head(i, i)) && tape == old(tape)[1..]
      ensures Tried(Second(i, n), old(Of(true)), Try(old(tape)[0], Of(true), ok))
      ensures X0[..16] == old(X0[..16]) && X1[..16] == old(X1[..16])
    {
      hide Solved1, OnPath1, Paired1, Picks;
      ok := TryPick(i, false);
    }

    /** Outputs 1 to 15 of block 2: the first is retried at will, each other up to ten times. */
    method PickSecond(ghost past: seq<Try>, ghost all: seq<bv32>) returns (r: Outcome, ghost log: seq<Try>)
      requires Arrays() && Booked(true, past, all) && SpotAfter(true, past) == Second(1, 0)
      modifies Q0, Q1, X0, X1, this`tape
      ensures Booked(true, log, all)
      ensures r.Found? ==> Head(15, 15) && SpotAfter(true, log) == Round21(0)
      ensures r.Missed? ==> SpotAfter(true, log) == Second(1, 0)
      ensures r.Dry? ==> tape == [] && SpotAfter(true, log).Second?
      ensures r.Dry? || |tape| < |old(tape)|
      ensures X0[..16] == old(X0[..16]) && X1[..16] == old(X1[..16])
    {
      hide Solved1, OnPath1, Paired1, Tried, Accounts, SpotAfter, Taken;
      log := past;
      while true
        invariant |tape| <= |old(tape)| && Booked(true, log, all) && SpotAfter(true, log) == Second(1, 0)
        invariant X0[..16] == old(X0[..16]) && X1[..16] == old(X1[..16])
        decreases |tape|
      {
        if tape == [] {
          return Dry, log;
        }
        ghost var before, words := Of(true), tape;
        var ok := TrySecond(1, 0);
        ghost var t := Try(words[0], Of(true), ok);
        BookDraw(true, mid0, mid1, log, before, t, words, all);
        log := log + [t];
        if ok {
          break;
        }
      }
      var j := 2;
      while j <= 15
        invariant 2 <= j <= 16 && Head(j - 1, j - 1) && |tape| < |old(tape)|
        invariant Booked(true, log, all) && SpotAfter(true, log) == if j <= 15 then Second(j, 0) else Round21(0)
        invariant X0[..16] == old(X0[..16]) && X1[..16] == old(X1[..16])
      {
        r, log := PickRetried(j, log, all);
        if !r.Found? {
          return;
        }
        j := j + 1;
      }
      r := Found;
    }

    /** Up to ten tries for output j. */
    method PickRetried(j: int, ghost past: seq<Try>, ghost all: seq<bv32>) returns (r: Outcome, ghost log: seq<Try>)
      requires Arrays() && 2 <= j <= 15 && Head(j - 1, j - 1)
      requires Booked(true, past, all) && SpotAfter(true, past) == Second(j, 0)
      modifies Q0, Q1, X0, X1, this`tape
      ensures Booked(true, log, all) && |tape| <= |old(tape)|
      ensures r.Found? ==> Head(j, j) && SpotAfter(true, log) == if j < 15 then Second(j + 1, 0) else Round21(0)
      ensures r.Missed? ==> SpotAfter(true, log) == Second(1, 0)
      ensures r.Dry? ==> tape == [] && SpotAfter(true, log).Second?
      ensures X0[..16] == old(X0[..16]) && X1[..16] == old(X1[..16])
    {
      hide Solved1, OnPath1, Paired1, Tried, Accounts, SpotAfter, Taken;
      log := past;
      var i := 0;
      while i < 10
        invariant 0 <= i <= 10 && Head(j - 1, j - 1) && |tape| <= |old(tape)|
        invariant Booked(true, log, all) && SpotAfter(true, log) == if i < 10 then Second(j, i) else Second(1, 0)
        invariant X0[..16] == old(X0[..16]) && X1[..16] == old(X1[..16])
      {
        if tape == [] {
          return Dry, log;
        }
        ghost var before, words := Of(true), tape;
        var ok := TrySecond(j, i);
        ghost var t := Try(words[0], Of(true), ok);
        BookDraw(true, mid0, mid1, log, before, t, words, all);
        log := log + [t];
        if ok {
          return Found, log;
        }
        i := i + 1;
      }
      r := Missed;
    }

    /** One round of LOOP_21 or LOOP_22: set Q[16] afresh, or vary one bit of it, solve for the last
        word, and run on to step 21 or 64. */
    method TryLast(flip: bool, ghost n: nat) returns (ok: bool)
      requires Arrays() && tape != [] && Head(15, if flip then 16 else 15)
      modifies Q0, Q1, X0, X1, this`mid0, this`mid1, this`tape
      ensures mid0 == old(mid0) && mid1 == old(mid1)
      ensures Head(15, 16) && tape == old(tape)[1..]
      ensures ok ==> Passed(true, Of(true), if flip then 64 else 21)
      ensures Tried(if flip then Round22(n) else Round21(n), old(Of(true)), Try(old(tape)[0], Of(true), ok))
      ensures X0[..16] == old(X0[..16]) && X1[..16] == old(X1[..16])
    {
      hide Solved1, OnPath1, Paired1, IsPick, SummedTo, StopsAt, Shaped, Flipped, FlipBit1, FlipBit2, PickMasks, WordIndex;
      var hi := if flip then 64 else 21;
      RunSteps(true, 17, hi);
      FirstIndex(16);
      ok := TryPick(16, flip);
      if ok {
        ghost var s := Of(true);
        ok := RunAll(true, 17, hi, 1, 1);
        KeepPairedOutput(s, Of(true), 0, 15);
      }
    }

    /** LOOP_21 and LOOP_22. */
    method LoopLast(flip: bool, ghost past: seq<Try>, ghost all: seq<bv32>) returns (r: Outcome, ghost log: seq<Try>)
      requires Arrays() && Head(15, if flip then 16 else 15)
      requires Booked(true, past, all) && SpotAfter(true, past) == if flip then Round22(0) else Round21(0)
      modifies Q0, Q1, X0, X1, this`mid0, this`mid1, this`tape
      ensures mid0 == old(mid0) && mid1 == old(mid1)
      ensures Booked(true, log, all)
      ensures r.Found? ==> Head(15, 16) && Passed(true, Of(true), if flip then 64 else 21)
      ensures r.Found? ==> SpotAfter(true, log) == if flip then Done2 else Round22(0)
      ensures r.Missed? ==> SpotAfter(true, log) == Second(1, 0) && |tape| < |old(tape)|
      ensures r.Dry? ==> tape == [] && SpotAfter(true, log) != Done2
      ensures |tape| <= |old(tape)|
      ensures X0[..16] == old(X0[..16]) && X1[..16] == old(X1[..16])
    {
      hide Solved1, OnPath1, Paired1, Tried, Passed, Accounts, SpotAfter, Taken;
      log := past;
      var i := 0;
      var rounds := if flip then LOOP_22 else LOOP_21;
      while i < rounds
        invariant 0 <= i <= rounds && Head(15, if flip then 16 else 15) && |tape| + i == |old(tape)|
        invariant mid0 == old(mid0) && mid1 == old(mid1) && Booked(true, log, all)
        invariant SpotAfter(true, log) == if i == rounds then Second(1, 0) else if flip then Round22(i) else Round21(i)
        invariant X0[..16] == old(X0[..16]) && X1[..16] == old(X1[..16])
      {
        if tape == [] {
          return Dry, log;
        }
        ghost var before, words := Of(true), tape;
        var ok := TryLast(flip, i);
        ghost var t := Try(words[0], Of(true), ok);
        BookDraw(true, mid0, mid1, log, before, t, words, all);
        log := log + [t];
        if ok {
          return Found, log;
        }
        i := i + 1;
      }
      r := Missed;
    }

    /** One pass of block 2: outputs 1 to 15, LOOP_21 and LOOP_22. */
    method PassSecond(ghost past: seq<Try>, ghost all: seq<bv32>) returns (r: Outcome, ghost log: seq<Try>)
      requires Arrays() && Booked(true, past, all) && SpotAfter(true, past) == Second(1, 0)
      modifies Q0, Q1, X0, X1, this`mid0, this`mid1, this`tape
      ensures mid0 == old(mid0) && mid1 == old(mid1) && Booked(true, log, all)
      ensures X0[..16] == old(X0[..16]) && X1[..16] == old(X1[..16])
      ensures r.Found? ==> Passed(true, Of(true), 64) && SpotAfter(true, log) == Done2
      ensures r.Missed? ==> SpotAfter(true, log) == Second(1, 0) && |tape| < |old(tape)|
      ensures r.Dry? ==> tape == [] && SpotAfter(true, log) != Done2
    {
      hide Solved, OnPath, Paired, Passed, Head, Accounts, Taken, SpotAfter;
      r, log := PickSecond(past, all);
      if r.Found? {
        r, log := LoopLast(false, log, all);
      }
      if r.Found? {
        r, log := LoopLast(true, log, all);
      }
    }

    /** The second block. It gives up only when the random outcomes run out, and accounts for each. */
    method Block2() returns (found: bool, ghost log: seq<Try>)
      requires Arrays()
      modifies Q0, Q1, X0, X1, this`mid0, this`mid1, this`tape
      ensures mid0 == old(mid0) && mid1 == old(mid1)
      ensures X0[..16] == old(X0[..16]) && X1[..16] == old(X1[..16])
      ensures found ==> Passed(true, Of(true), 64)
      ensures found ==> Compress(mid0, X0[16..]) == Compress(mid1, X1[16..])
      ensures !found ==> tape == []
      ensures Accounts(true, mid0, mid1, log) && Taken(log) + tape == old(tape)
      ensures found <==> SpotAfter(true, log) == Done2
    {
      hide Passed, Compress, Accounts, Taken;
      ghost var all := tape;
      log := [];
      NoTries(true, mid0, mid1);
      hide SpotAfter;
      var r := Missed;
      while r.Missed?
        invariant mid0 == old(mid0) && mid1 == old(mid1) && Booked(true, log, all)
        invariant X0[..16] == old(X0[..16]) && X1[..16] == old(X1[..16])
        invariant r.Found? ==> Passed(true, Of(true), 64) && SpotAfter(true, log) == Done2
        invariant r.Missed? ==> SpotAfter(true, log) == Second(1, 0)
        invariant r.Dry? ==> tape == [] && SpotAfter(true, log) != Done2
        decreases r.Missed?, |tape|
      {
        r, log := PassSecond(log, all);
      }
      found := r.Found?;
      if found {
        PassedCollides(Of(true));
        assert X0[16..32] == X0[16..] && X1[16..32] == X1[16..];
      }
    }

    /** The whole search. A normal return is a pair of messages that collide under MD5's compression
        from `iv`, and that differ in exactly the words and bits stated; and it returns exactly if
        the tries that the random words lead to, one for each, end with a second block found. */
    method FindPair() returns (found: bool, ghost first: seq<Try>, ghost second: seq<Try>)
      requires Arrays()
      modifies Q0, Q1, X0, X1, this`mid0, this`mid1, this`tape
      ensures found ==> TwoBlocks(iv, X0[..]) == TwoBlocks(iv, X1[..])
      ensures found ==> forall k :: 0 <= k < 32 ==> Xor(X0[k], X1[k]) == WordDelta(k % 16)
      ensures !found ==> tape == []
      ensures Taken(first) + Taken(second) + tape == old(tape)
      ensures WholeAccount(iv, first, second)
      ensures found <==> SpotAfter(true, second) == Done2
    {
      hide Solved1, OnPath1, Compress, Xor, WordDelta, Accounts, Taken, SpotAfter;
      second := [];
      found, first := Block1();
      NoTries(true, mid0, mid1);
      if found {
        ghost var one := Of(false);
        ghost var rest := tape;
        found, second := Block2();
        assert (Taken(first) + Taken(second)) + tape == Taken(first) + rest;
        if found {
          assert X0[..][16..] == X0[16..] && X1[..][16..] == X1[16..];
          assert one.x0 == X0[..16] && one.x1 == X1[..16];
          PairFound(one, Of(true), X0[..], X1[..]);
        }
      }
    }
  }

  /** An account of block 1, and behind its end one of block 2, whose two chains start from what the
      blocks found compress to. */
  ghost predicate WholeAccount(iv: Regs, first: seq<Try>, second: seq<Try>) {
    && Accounts(false, iv, iv, first)
    && (SpotAfter(false, first) != Done1 ==> second == [])
    && (SpotAfter(false, first) == Done1 ==>
        first != [] && Accounts(true, Compress(iv, Last(first).end.x0), Compress(iv, Last(first).end.x1), second))
  }

  lemma PairFound(one: Lanes, two: Lanes, x0: seq<Word>, x1: seq<Word>)
    requires |x0| == |x1| == 32 && Paired(one, 0, 15) && Paired(two, 0, 15)
    requires one.x0 == x0[..16] && one.x1 == x1[..16] && two.x0 == x0[16..32] && two.x1 == x1[16..32]
    ensures forall k :: 0 <= k < 32 ==> Xor(x0[k], x1[k]) == WordDelta(k % 16)
  {
    hide Xor, WordDelta;
    forall k | 0 <= k < 32 ensures Xor(x0[k], x1[k]) == WordDelta(k % 16) {
      if k < 16 {
        PairedAt(one, k);
        assert one.x0[k] == x0[k] && one.x1[k] == x1[k];
      } else {
        PairedAt(two, k - 16);
        assert two.x0[k - 16] == x0[k] && two.x1[k - 16] == x1[k];
      }
    }
  }

  lemma PairedAt(s: Lanes, k: int)
    requires Paired(s, 0, 15) && 0 <= k < 16
    ensures Xor(s.x0[k], s.x1[k]) == WordDelta(k)
  {
    hide Xor, WordDelta;
    assert Paired1(s, k);
  }

  /** The chaining value after two blocks. */
  function TwoBlocks(h: Regs, x: seq<Word>): Regs
    requires |x| == 32
  {
    Compress(Compress(h, x[..16]), x[16..])
  }

  /** A pair from the search collides in the digest, behind every prefix that leads MD5 to the
      search's starting value and before every suffix. */
  lemma PairCollides(prefix: seq<Octet>, suffix: seq<Octet>, x0: seq<Word>, x1: seq<Word>)
    requires |x0| == |x1| == 32 && |prefix| % 64 == 0
    ensures TwoBlocks(Fold(INIT, prefix), x0) == TwoBlocks(Fold(INIT, prefix), x1) ==>
      Digest(prefix + WordsToOctets(x0) + suffix) == Digest(prefix + WordsToOctets(x1) + suffix)
  {
    hide Fold, TwoBlocks, Digest, Closing;
    FoldPair(prefix, x0);
    FoldPair(prefix, x1);
    DigestSplits(prefix + WordsToOctets(x0), suffix);
    DigestSplits(prefix + WordsToOctets(x1), suffix);
  }

  /** What MD5 still has to compress after n octets: the suffix, the padding and the length. */
  function Closing(n: nat, suffix: seq<Octet>): (s: seq<Octet>)
    requires n % 64 == 0
    ensures |s| % 64 == 0
  {
    WholeBlocks(n, |suffix|);
    suffix + Padding(PadCount(n + |suffix|)) + LengthOctets(8 * (n + |suffix|) % TWO64)
  }

  lemma WholeBlocks(n: nat, k: nat)
    requires n % 64 == 0
    ensures (k + PadCount(n + k) + 8) % 64 == 0
  {
    var p := PadCount(n + k);
    assert n + k + p == 64 * ((n + k + p) / 64) + 56;
    assert k + p + 8 == 64 * ((n + k + p) / 64 + 1 - n / 64);
  }

  lemma DigestSplits(s: seq<Octet>, suffix: seq<Octet>)
    requires |s| % 64 == 0
    ensures Digest(s + suffix) == RegsOctets(Fold(Fold(INIT, s), Closing(|s|, suffix)))
  {
    hide Fold, RegsOctets, Padded, Closing;
    PaddedSplits(s, suffix);
    FoldAppend(INIT, s, Closing(|s|, suffix));
  }

  lemma PaddedSplits(s: seq<Octet>, suffix: seq<Octet>)
    requires |s| % 64 == 0
    ensures Padded(s + suffix) == s + Closing(|s|, suffix)
  {
    hide LengthOctets, Padding, PadCount;
    var n := |s| + |suffix|;
    assert |s + suffix| == n;
    Regroup(s, suffix, Padding(PadCount(n)), LengthOctets(8 * n % TWO64));
  }

  lemma Regroup(s: seq<Octet>, t: seq<Octet>, u: seq<Octet>, v: seq<Octet>)
    ensures (s + t) + u + v == s + (t + u + v)
  {
  }

  lemma FoldPair(prefix: seq<Octet>, x: seq<Word>)
    requires |x| == 32 && |prefix| % 64 == 0
    ensures Fold(INIT, prefix + WordsToOctets(x)) == TwoBlocks(Fold(INIT, prefix), x)
  {
    hide Fold, Compress, Words, WordOctet;
    var b0, b1 := WordsToOctets(x[..16]), WordsToOctets(x[16..]);
    assert WordsToOctets(x) == b0 + b1;
    WordsRoundTrip(x[..16]);
    WordsRoundTrip(x[16..]);
    FoldOne(INIT, prefix, b0);
    FoldOne(INIT, prefix + b0, b1);
    assert prefix + WordsToOctets(x) == (prefix + b0) + b1;
  }

  /** The two messages of a pair are different, in exactly six words, and there in one bit. */
  lemma PairDiffers(x0: seq<Word>, x1: seq<Word>, k: nat)
    requires |x0| == |x1| == 32 && k < 32
    requires Xor(x0[k], x1[k]) == WordDelta(k % 16)
    ensures x0[k] != x1[k] <==> k in {4, 11, 14, 20, 27, 30}
    ensures k in {4, 14, 20, 30} ==> Xor(x0[k], x1[k]) == 0x80000000
    ensures k in {11, 27} ==> Xor(x0[k], x1[k]) == 0x8000
  {
    XorZero(x0[k], x1[k]);
    hide Xor;
  }

  lemma PicksOfBlock2(i: int)
    requires 1 <= i <= 16
    ensures IsPick(true, i)
  {
  }

  lemma PassedCollides(s: Lanes)
    requires Sized(s) && Passed(true, s, 64)
    ensures Compress(s.c0.h, s.x0) == Compress(s.c1.h, s.x1)
  {
    hide Solved1, OnPath1, Paired1, Compress;
    EqualSums(s);
  }

  /** In block 2 the last four tests make the two chaining values equal. */
  lemma EqualSums(s: Lanes)
    requires Sized(s) && Solved(s, 1, 64) && OnPath(true, s, 61, 64)
    ensures Compress(s.c0.h, s.x0) == Compress(s.c1.h, s.x1)
  {
    hide Solved1, Compress, Add, Xor;
    SolvedIsCompress(s.c0, s.x0);
    SolvedIsCompress(s.c1, s.x1);
    assert OnPath1(true, s.c0, s.c1, 61) && OnPath1(true, s.c0, s.c1, 62);
    assert OnPath1(true, s.c0, s.c1, 63) && OnPath1(true, s.c0, s.c1, 64);
  }

  lemma SumsAreCompress(m: Regs, c: Chain, x: Block)
    requires WellSized(c) && SummedTo(m, c, 64)
    requires forall i | 1 <= i <= 64 :: Solved1(c, x, i)
    ensures m == Compress(c.h, x)
  {
    hide Solved1, Compress, Add;
    SolvedIsCompress(c, x);
  }

  lemma LateIndices()
    ensures WordIndex(16) == 1 && WordIndex(19) == 0 && IsPick(false, 17) && IsPick(false, 20)
  {
  }

  lemma RunSteps(second: bool, lo: int, hi: int)
    requires (second && 17 <= lo) || (18 <= lo && hi <= 19) || 21 <= lo
    ensures forall i :: lo <= i <= hi ==> !IsPick(second, i)
  {
  }

  lemma HeadOutput(s: Lanes, s': Lanes, j: int)
    requires Sized(s) && (j == 17 || j == 20) && OutputChanged(s, s', j)
    requires Solved(s, 7, j - 1) && OnPath(false, s, 3, j - 1) && Paired(s, 6, 15)
    ensures Solved(s', 7, j - 1) && OnPath(false, s', 3, j - 1) && Paired(s', 6, 15)
  {
    hide Solved1, OnPath1, Paired1, Unread;
    KeepSolved(s, s', j, 7, j - 1);
    LaterUnread(false, 3, j);
    KeepOnPath(false, s, s', j, 3, j - 1);
    KeepPairedOutput(s, s', 6, 15);
  }

  lemma FlipHead(s: Lanes, s': Lanes)
    requires Sized(s) && OutputChanged(s, s', 20) && OnPath1(false, s'.c0, s'.c1, 20)
    requires Solved(s, 7, 19) && OnPath(false, s, 3, 20) && Paired(s, 6, 15) && Paired(s, 1, 1)
    ensures Solved(s', 7, 19) && OnPath(false, s', 3, 20) && Paired(s', 6, 15) && Paired(s', 1, 1)
  {
    hide Solved1, OnPath1, Paired1;
    HeadOutput(s, s', 20);
    KeepPairedOutput(s, s', 1, 1);
  }

  lemma FilledWords(s: Lanes, n: int)
    requires Sized(s) && Filled(s, n)
    ensures s.x0[0] == s.x1[0] && s.x0[1] == s.x1[1]
  {
    hide Solved1, OnPath1, Paired1;
    SameWords(s, 0);
    SameWords(s, 1);
  }

  lemma FilledOutputs(s: Lanes, n: int)
    requires Sized(s) && Filled(s, n)
    ensures s.c0.q[3] == s.c1.q[3] && s.c0.q[4] == s.c1.q[4]
  {
    hide Solved1, OnPath1, Paired1;
    SameOutputs(s);
  }

  /** Steps 1 to n and 7 to 20 of block 1 are solved, with the words they use. */
  ghost predicate Filled(s: Lanes, n: int)
    requires Sized(s)
  {
    && Solved(s, 1, n) && Solved(s, 7, 20) && OnPath(false, s, 3, 20)
    && Paired(s, 6, 15) && Paired(s, 0, if n < 3 then 1 else n - 1)
  }

  lemma FillOutput(s: Lanes, s': Lanes, j: int)
    requires Sized(s) && 1 <= j <= 2 && OutputChanged(s, s', j)
    requires Filled(s, j - 1) && Solved(s', j, j)
    ensures Filled(s', j)
  {
    hide Solved1, OnPath1, Paired1;
    KeepSolved(s, s', j, 1, j - 1);
    KeepSolved(s, s', j, 7, 20);
    KeepOnPath(false, s, s', j, 3, 20);
    KeepPairedOutput(s, s', 6, 15);
    KeepPairedOutput(s, s', 0, 1);
  }

  lemma KeepPairedOutput(s: Lanes, s': Lanes, lo: int, hi: int)
    requires s'.x0 == s.x0 && s'.x1 == s.x1 && Paired(s, lo, hi)
    ensures Paired(s', lo, hi)
  {
    hide Xor, WordDelta;
    forall k | lo <= k <= hi && 0 <= k < 16 ensures Paired1(s', k) { assert Paired1(s, k); }
  }

  lemma FillWord(s: Lanes, s': Lanes, i: int)
    requires Sized(s) && 3 <= i <= 6 && WordChanged(s, s', i - 1)
    requires Filled(s, i - 1) && Solved(s', i, i)
    ensures Solved(s', 7, 20) && OnPath(false, s', 3, 20) && Paired(s', 6, 15) && Paired(s', 0, 1)
    ensures Paired1(s', i - 1) ==> Filled(s', i)
  {
    hide Solved1, OnPath1, Paired1, ReadsWord;
    LowWords(i - 1);
    KeepSolvedWord(s, s', i - 1, 1, i - 1);
    KeepSolvedWord(s, s', i - 1, 7, 20);
    KeepPaired(s, s', i - 1, 6, 15);
    KeepPaired(s, s', i - 1, 0, i - 2);
  }

  lemma SameOutputs(s: Lanes)
    requires Sized(s) && OnPath(false, s, 3, 4)
    ensures s.c0.q[3] == s.c1.q[3] && s.c0.q[4] == s.c1.q[4]
  {
    hide HasShape, Less;
    assert OnPath1(false, s.c0, s.c1, 3) && OnPath1(false, s.c0, s.c1, 4);
    LessNothing(s.c0.q[3]);
    LessNothing(s.c0.q[4]);
  }

  lemma LessNothing(v: Word)
    ensures Less(v, 0) == v
  {
    assert Less(v, 0).bits == v.bits;
  }

  lemma CopiesOnPath(s: Lanes)
    requires Sized(s) && s.c0.q[1] == s.c1.q[1] && s.c0.q[2] == s.c1.q[2]
    ensures OnPath(false, s, 1, 2)
  {
  }

  lemma SameWordsPaired(s: Lanes, k: int)
    requires 0 <= k <= 3 && s.x0[k] == s.x1[k]
    ensures Paired1(s, k)
  {
    XorZero(s.x0[k], s.x1[k]);
    hide Xor;
  }

  lemma FirstIndex(i: int)
    requires 1 <= i <= 16
    ensures WordIndex(i - 1) == i - 1
  {
  }

  lemma SameWords(s: Lanes, k: int)
    requires 0 <= k <= 3 && Paired1(s, k)
    ensures s.x0[k] == s.x1[k]
  {
    XorZero(s.x0[k], s.x1[k]);
    hide Xor;
  }

  /** The registers of steps 61 to n of a block hold chaining value plus output. */
  ghost predicate SummedTo(m: Regs, c: Chain, n: int)
    requires WellSized(c)
  {
    && (n >= 61 ==> m.a == Add(c.h.a, c.q[61])) && (n >= 62 ==> m.d == Add(c.h.d, c.q[62]))
    && (n >= 63 ==> m.c == Add(c.h.c, c.q[63])) && (n >= 64 ==> m.b == Add(c.h.b, c.q[64]))
  }

  lemma NothingSummed(m: Regs, c: Chain, n: int)
    requires WellSized(c)
    ensures n < 61 ==> SummedTo(m, c, n)
  {
  }

  lemma IntoSums(m: Regs, m': Regs, c: Chain, c': Chain, i: int)
    requires WellSized(c) && 3 <= i <= 64 && QChanged(c, c', i)
    requires SummedTo(m, c, i - 1)
    requires i >= 61 ==> m' == Into(m, c'.h, c'.q[i], i)
    ensures SummedTo(m', c', i)
  {
    hide Add;
  }

  lemma LaterUnread(second: bool, lo: int, j: int)
    ensures forall i :: lo <= i < j ==> Unread(second, i, j)
  {
  }

  /** The sum of step i's output and its feed-forward register, stored in its register. */
  function Into(m: Regs, h: Regs, v: Word, i: int): Regs {
    if i == 61 then m.(a := Add(h.a, v)) else if i == 62 then m.(d := Add(h.d, v))
    else if i == 63 then m.(c := Add(h.c, v)) else m.(b := Add(h.b, v))
  }

  lemma FlipAvoids(second: bool, r: bv32)
    ensures var p := PickMasks(second, if second then 16 else 20);
      var m := if second then FlipBit2(r) else FlipBit1(r);
      p.copy == 0 && Avoids(m, p.set1) && Avoids(m, p.clear)
  {
    if second {
      MaskIsOneBit(r as nat % 30);
      BitAvoids(if r as nat % 30 == 29 then 30 else r as nat % 30);
    } else {
      BitAvoidsTop(r as nat % 31);
    }
    hide OneBit, Avoids, MASK22;
  }

  lemma BitAvoids(n: nat)
    requires n < 31 && n != 29
    ensures Avoids(OneBit(n), 0x20000000) && Avoids(OneBit(n), 0x80000000)
  {
  }

  lemma BitAvoidsTop(n: nat)
    requires n < 31
    ensures Avoids(OneBit(n), 0) && Avoids(OneBit(n), 0x80000000)
  {
  }
}
