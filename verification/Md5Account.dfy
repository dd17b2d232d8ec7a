/** The book-keeping of the two-block search: where in the search each random word is taken, what
    is made of it, which test decides, and where that leads. An account of a run has one entry for
    every random word that was taken. */
module Md5Account {
  import opened Basics
  import opened Md5Spec
  import opened Md5Path

  // ---------------------------------------------------------------------------------
  // The bits that are flipped.

  function OneBit(n: nat): bv32
    requires n < 32
  {
    1 << n
  }

  /** What LOOP_12 flips: one of the bits 0 to 30. */
  function FlipBit1(r: bv32): bv32 { OneBit(r as nat % 31) }

  const MASK22: seq<bv32> := [
    0x00000001, 0x00000002, 0x00000004, 0x00000008, 0x00000010, 0x00000020, 0x00000040, 0x00000080,
    0x00000100, 0x00000200, 0x00000400, 0x00000800, 0x00001000, 0x00002000, 0x00004000, 0x00008000,
    0x00010000, 0x00020000, 0x00040000, 0x00080000, 0x00100000, 0x00200000, 0x00400000, 0x00800000,
    0x01000000, 0x02000000, 0x04000000, 0x08000000, 0x10000000, 0x40000000]

  /** What LOOP_22 flips. */
  function FlipBit2(r: bv32): bv32 { MASK22[r as nat % 30] }

  /** One bit is set, and it is bit n. */
  lemma OneBitIs(n: nat, k: bv32)
    requires n < 32 && k < 32
    ensures (OneBit(n) >> k) & 1 == if k == n as bv32 then 1 else 0
  {
  }

  /** The table holds the bits 0 to 28, and bit 30. */
  lemma MaskIsOneBit(n: nat)
    requires n < 30
    ensures MASK22[n] == OneBit(if n == 29 then 30 else n)
  {
    if n < 12 { LowMask(n); } else if n < 22 { MiddleMask(n); } else { HighMask(n); }
    hide OneBit;
  }

  lemma LowMask(n: nat)
    requires n < 12
    ensures MASK22[n] == OneBit(n)
  {
  }

  lemma MiddleMask(n: nat)
    requires 12 <= n < 22
    ensures MASK22[n] == OneBit(n)
  {
  }

  lemma HighMask(n: nat)
    requires 22 <= n < 30
    ensures MASK22[n] == OneBit(if n == 29 then 30 else n)
  {
  }

  function FlipBits(v: bv32, m: bv32): bv32 { v ^ m }

  function Flipped(v: Word, m: bv32): Word { W(FlipBits(v.bits, m)) }

  // ---------------------------------------------------------------------------------
  // Tests that fail.

  /** Step i was run and one of its tests fails: that on the first message's output, after which
      the second message's is not computed, or that on the difference between the two. */
  ghost predicate Failed(second: bool, s: Lanes, i: int)
    requires Sized(s) && 1 <= i <= 64
  {
    && Solved1(s.c0, s.x0, i)
    && (!TestOutput(second, s.c0, i) || (Solved1(s.c1, s.x1, i) && !TestDifference(second, s.c0, s.c1, i)))
  }

  /** The steps before step i, from `base`, are solved, their tests from `path` passed, and step i
      fails. */
  ghost predicate StopsAt(second: bool, s: Lanes, base: int, path: int, i: int)
    requires Sized(s) && 1 <= i <= 64
  {
    Solved(s, base, i - 1) && OnPath(second, s, path, i - 1) && Failed(second, s, i)
  }

  /** One of the steps lo to hi is the first to fail. */
  ghost predicate Stopped(second: bool, s: Lanes, base: int, path: int, lo: int, hi: int)
    requires Sized(s)
  {
    exists i :: lo <= i <= hi && 1 <= i <= 64 && StopsAt(second, s, base, path, i)
  }

  /** Step i is solved for its words, and they do not differ as they must. */
  ghost predicate Mismatched(s: Lanes, i: int)
    requires Sized(s) && 1 <= i <= 64
  {
    Solved(s, i, i) && !Paired1(s, WordIndex(i - 1))
  }

  /** Why a round of LOOP_11 from output 20 on, or of LOOP_12, fails. */
  ghost predicate VaryFails(s: Lanes, hi: int)
    requires Sized(s)
  {
    Mismatched(s, 20) || Mismatched(s, 5) || Mismatched(s, 6) || Stopped(false, s, 1, 1, 21, hi)
  }

  /** Steps 1 to hi are solved and tested, and all words differ as they must. */
  ghost predicate Passed(second: bool, s: Lanes, hi: int)
    requires Sized(s)
  {
    Solved(s, 1, hi) && OnPath(second, s, 1, hi) && Paired(s, 0, 15)
  }

  // ---------------------------------------------------------------------------------
  // Tries.

  /** Where a random word is taken: for an output of block 1; in round n of LOOP_11, for output 17 and
      then for output 20; in round n of LOOP_12; for an output of block 2, at try n; in round n of
      LOOP_21 and of LOOP_22. */
  datatype Spot = First(i: int) | Round11(n: nat) | Late11(n: nat) | Round12(n: nat) | Done1
                | Second(i: int, n: nat) | Round21(n: nat) | Round22(n: nat) | Done2

  /** A random word, the two chains and blocks at the end of the try made with it, and its success. */
  datatype Try = Try(draw: bv32, end: Lanes, hit: bool)

  /** Where the next word is taken. */
  function NextSpot(at: Spot, hit: bool): Spot {
    match at
    case First(i) => if !hit then First(3) else if i < 16 then First(i + 1) else Round11(0)
    case Round11(n) => if hit then Late11(n) else if n + 1 < 300 then Round11(n + 1) else First(3)
    case Late11(n) => if hit then Round12(0) else if n + 1 < 300 then Round11(n + 1) else First(3)
    case Round12(n) => if hit then Done1 else if n + 1 < 0x2000_0000 then Round12(n + 1) else First(3)
    case Second(i, n) =>
      if hit then if i < 15 then Second(i + 1, 0) else Round21(0)
      else if i > 1 && n + 1 < 10 then Second(i, n + 1) else Second(1, 0)
    case Round21(n) => if hit then Round22(0) else if n + 1 < 1000 then Round21(n + 1) else Second(1, 0)
    case Round22(n) => if hit then Done2 else if n + 1 < 0x400_0000 then Round22(n + 1) else Second(1, 0)
    case _ => at
  }

  /** Outputs lo to hi of the first message are what they were. */
  predicate SameOutputs(b: Lanes, s: Lanes, lo: int, hi: int)
    requires Sized(b) && Sized(s)
  {
    forall j :: lo <= j <= hi && 0 <= j <= 64 ==> s.c0.q[j] == b.c0.q[j]
  }

  /** Output i was picked from a random word, behind outputs that stand. */
  predicate Picks(second: bool, b: Lanes, s: Lanes, i: int, draw: bv32)
    requires Sized(b) && Sized(s) && 1 <= i <= 64
  {
    && s.c0.q[i] == Shaped(PickMasks(second, i), draw, s.c0.q[i - 1])
    && SameOutputs(b, s, if second then 1 else 3, i - 1)
  }

  /** One bit of output i was flipped, behind outputs that stand. */
  predicate Flips(second: bool, b: Lanes, s: Lanes, i: int, draw: bv32)
    requires Sized(b) && Sized(s) && 1 <= i <= 64
  {
    && s.c0.q[i] == Flipped(b.c0.q[i], if second then FlipBit2(draw) else FlipBit1(draw))
    && SameOutputs(b, s, if second then 1 else 3, i - 1)
  }

  /** What a try does at its spot, and when it succeeds. */
  ghost predicate Tried(at: Spot, b: Lanes, t: Try)
    requires Sized(b) && Sized(t.end)
  {
    var s := t.end;
    match at
    case First(i) =>
      && 3 <= i <= 16 && Picks(false, b, s, i, t.draw)
      && Solved(s, 7, i) && OnPath(false, s, 3, i) && Paired(s, 6, i - 2)
      && (t.hit <==> i < 7 || Paired1(s, i - 1))
    case Round11(_) =>
      && Picks(false, b, s, 17, t.draw)
      && (t.hit ==> Solved(s, 7, 19) && OnPath(false, s, 3, 19) && Paired(s, 1, 1))
      && (!t.hit ==> Mismatched(s, 17) || Stopped(false, s, 7, 3, 18, 19))
    case Late11(_) =>
      && Picks(false, b, s, 20, t.draw)
      && (t.hit ==> Passed(false, s, 27)) && (!t.hit ==> VaryFails(s, 27))
    case Round12(_) =>
      && Flips(false, b, s, 20, t.draw)
      && (t.hit ==> Passed(false, s, 64)) && (!t.hit ==> VaryFails(s, 64))
    case Second(i, _) =>
      && 1 <= i <= 15 && Picks(true, b, s, i, t.draw)
      && Solved(s, 1, i) && OnPath(true, s, 1, i) && Paired(s, 0, i - 2)
      && (t.hit <==> Paired1(s, i - 1))
    case Round21(_) =>
      && Picks(true, b, s, 16, t.draw)
      && (t.hit ==> Passed(true, s, 21)) && (!t.hit ==> Mismatched(s, 16) || Stopped(true, s, 1, 1, 17, 21))
    case Round22(_) =>
      && Flips(true, b, s, 16, t.draw)
      && (t.hit ==> Passed(true, s, 64)) && (!t.hit ==> Mismatched(s, 16) || Stopped(true, s, 1, 1, 17, 64))
    case _ => false
  }

  // ---------------------------------------------------------------------------------
  // Accounts.

  function Start(second: bool): Spot { if second then Second(1, 0) else First(3) }

  /** Where the next word is taken after the tries so far. */
  function SpotAfter(second: bool, log: seq<Try>): Spot {
    if log == [] then Start(second) else NextSpot(SpotAfter(second, Front(log)), Last(log).hit)
  }

  /** Every try was made at the spot that those before it lead to, on the outputs they left. */
  ghost predicate Accounts(second: bool, h0: Regs, h1: Regs, log: seq<Try>)
    decreases |log|
  {
    log == [] ||
    (var t, past := Last(log), Front(log);
      && Accounts(second, h0, h1, past)
      && Sized(t.end) && t.end.c0.h == h0 && t.end.c1.h == h1
      && (past != [] ==> Sized(Last(past).end))
      && Tried(SpotAfter(second, past), if past == [] then t.end else Last(past).end, t))
  }

  /** The random words that were taken. */
  function Taken(log: seq<Try>): (words: seq<bv32>)
    ensures |words| == |log|
  {
    seq(|log|, k requires 0 <= k < |log| => log[k].draw)
  }

  lemma NoTries(second: bool, h0: Regs, h1: Regs)
    ensures Accounts(second, h0, h1, []) && Taken([]) == [] && SpotAfter(second, []) == Start(second)
  {
  }

  /** One more try. */
  lemma Book(second: bool, h0: Regs, h1: Regs, log: seq<Try>, b: Lanes, t: Try)
    requires Accounts(second, h0, h1, log) && Sized(b) && Sized(t.end)
    requires t.end.c0.h == h0 && t.end.c1.h == h1
    requires log != [] ==> Last(log).end == b
    requires Tried(SpotAfter(second, log), b, t)
    ensures Accounts(second, h0, h1, log + [t])
    ensures SpotAfter(second, log + [t]) == NextSpot(SpotAfter(second, log), t.hit)
    ensures Taken(log + [t]) == Taken(log) + [t.draw]
    ensures Last(log + [t]) == t
  {
    hide Tried, NextSpot;
    assert Front(log + [t]) == log && Last(log + [t]) == t;
    if log == [] { FirstTry(second, b, t); }
  }

  /** One more try, with the next random word. */
  lemma BookDraw(second: bool, h0: Regs, h1: Regs, log: seq<Try>, b: Lanes, t: Try, tape: seq<bv32>, all: seq<bv32>)
    requires Accounts(second, h0, h1, log) && Sized(b) && Sized(t.end)
    requires t.end.c0.h == h0 && t.end.c1.h == h1
    requires log != [] ==> Last(log).end == b
    requires Tried(SpotAfter(second, log), b, t)
    requires tape != [] && t.draw == tape[0] && Taken(log) + tape == all
    ensures Accounts(second, h0, h1, log + [t])
    ensures SpotAfter(second, log + [t]) == NextSpot(SpotAfter(second, log), t.hit)
    ensures Taken(log + [t]) + tape[1..] == all && Last(log + [t]) == t
  {
    hide Accounts, Tried, SpotAfter, Taken, NextSpot;
    Book(second, h0, h1, log, b, t);
    assert (Taken(log) + [t.draw]) + tape[1..] == Taken(log) + ([t.draw] + tape[1..]);
    assert [t.draw] + tape[1..] == tape;
  }

  /** The first try of a block does not look at earlier outputs. */
  lemma FirstTry(second: bool, b: Lanes, t: Try)
    requires Sized(b) && Sized(t.end) && Tried(Start(second), b, t)
    ensures Tried(Start(second), t.end, t)
  {
    hide Solved, OnPath, Paired, Paired1;
  }

  /** In an account, every try that did not succeed failed a test: a message word that was solved for
      does not differ as it must, or a step that was run does not pass. */
  lemma {:induction false} MissesAreNamed(second: bool, h0: Regs, h1: Regs, log: seq<Try>, k: nat)
    requires Accounts(second, h0, h1, log) && k < |log| && !log[k].hit
    ensures Sized(log[k].end)
    ensures exists i | 1 <= i <= 64 :: Mismatched(log[k].end, i) || Failed(second, log[k].end, i)
    decreases |log|
  {
    hide Tried, SpotAfter, Mismatched, Failed;
    if k < |log| - 1 {
      assert Front(log)[k] == log[k];
      MissesAreNamed(second, h0, h1, Front(log), k);
    } else {
      var past := Front(log);
      SpotIn(second, past);
      MissIsNamed(second, SpotAfter(second, past), if past == [] then log[k].end else Last(past).end, log[k]);
    }
  }

  predicate InBlock(second: bool, at: Spot) {
    if second then at.Second? || at.Round21? || at.Round22? || at.Done2?
    else at.First? || at.Round11? || at.Late11? || at.Round12? || at.Done1?
  }

  lemma {:induction false} SpotIn(second: bool, log: seq<Try>)
    ensures InBlock(second, SpotAfter(second, log))
  {
    if log != [] {
      SpotIn(second, Front(log));
    }
  }

  lemma MissIsNamed(second: bool, at: Spot, b: Lanes, t: Try)
    requires Sized(b) && Sized(t.end) && Tried(at, b, t) && !t.hit && InBlock(second, at)
    ensures exists i | 1 <= i <= 64 :: Mismatched(t.end, i) || Failed(second, t.end, i)
  {
    match at
    case First(i) => SolvedMiss(t.end, i, 7);
    case Second(i, _) => SolvedMiss(t.end, i, 1);
    case Round11(_) => StoppedMiss(false, t.end, 7, 3, 18, 19);
    case Late11(_) => StoppedMiss(false, t.end, 1, 1, 21, 27);
    case Round12(_) => StoppedMiss(false, t.end, 1, 1, 21, 64);
    case Round21(_) => StoppedMiss(true, t.end, 1, 1, 17, 21);
    case Round22(_) => StoppedMiss(true, t.end, 1, 1, 17, 64);
    hide Mismatched, Failed, Stopped, Picks, Flips, Solved, OnPath, Paired, Paired1;
  }

  lemma SolvedMiss(s: Lanes, i: int, base: int)
    requires Sized(s) && 1 <= base <= i <= 16 && Solved(s, base, i) && !Paired1(s, i - 1)
    ensures Mismatched(s, i)
  {
    hide Solved1, Paired1;
  }

  lemma StoppedMiss(second: bool, s: Lanes, base: int, path: int, lo: int, hi: int)
    requires Sized(s)
    ensures Stopped(second, s, base, path, lo, hi) ==> exists i :: 1 <= i <= 64 && Failed(second, s, i)
  {
    hide Solved, OnPath, Failed;
    if Stopped(second, s, base, path, lo, hi) {
      var i :| lo <= i <= hi && 1 <= i <= 64 && StopsAt(second, s, base, path, i);
      assert Failed(second, s, i);
    }
  }
}
