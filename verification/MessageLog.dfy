/** The bounded message log with one reading cursor per session: the operations on values,
    and what every run of them delivers. */
module MessageLog {
  import opened Basics

  datatype Msg = Msg(id: int, text: string)

  datatype Session = Session(cursor: int, ipaddr: string, words: seq<string>, kill: bool)

  const FRESH := Session(0, "", [], false)

  datatype Log = Log(msgs: seq<Msg>, sessions: map<string, Session>, next: int) {
    /** Looking a session up; the map makes a fresh one where there is none. */
    function Get(sid: string): Session { if sid in sessions then sessions[sid] else FRESH }

    function Put(sid: string, s: Session): Log { this.(sessions := sessions[sid := s]) }
  }

  const EMPTY := Log([], map[], 0)

  const LIMIT: nat := 2000
  const DROPPED: nat := 1000

  function Trim(msgs: seq<Msg>): seq<Msg> { if |msgs| > LIMIT then msgs[DROPPED..] else msgs }

  function WriteTo(log: Log, text: string): Log {
    log.(msgs := Trim(log.msgs) + [Msg(log.next, text)], next := log.next + 1)
  }

  /** The messages above a cursor, in the order of the log. */
  function Above(msgs: seq<Msg>, cursor: int): seq<Msg> {
    if msgs == [] then [] else
    var k := |msgs| - 1;
    Above(msgs[..k], cursor) + if msgs[k].id > cursor then [msgs[k]] else []
  }

  function Commas(ms: seq<Msg>): string {
    if ms == [] then "" else Commas(Front(ms)) + Last(ms).text + ","
  }

  /** The texts with a comma between any two. */
  function Joined(ms: seq<Msg>): string {
    if ms == [] then "" else if |ms| == 1 then ms[0].text else Joined(Front(ms)) + "," + Last(ms).text
  }

  function ReplyOf(ms: seq<Msg>): string { "[" + Joined(ms) + "]" }

  /** The last comma is the one too many. */
  lemma {:induction false} CommasJoined(ms: seq<Msg>)
    requires ms != []
    ensures Commas(ms) == Joined(ms) + ","
  {
    if |ms| > 1 {
      CommasJoined(Front(ms));
    } else {
      assert Commas(ms[..0]) == "";
    }
  }

  /** For every list of messages: an opening bracket, the texts with commas between them, and a
      closing bracket. */
  lemma ReplyText(ms: seq<Msg>, m: Msg)
    ensures ReplyOf([]) == "[]"
    ensures ReplyOf([m]) == "[" + m.text + "]"
    ensures ms != [] ==> ReplyOf(ms + [m]) == ReplyOf(ms)[..|ReplyOf(ms)| - 1] + "," + m.text + "]"
  {
    assert Front(ms + [m]) == ms && Last(ms + [m]) == m;
    if ms != [] {
      var t := ReplyOf(ms);
      assert t[..|t| - 1] == "[" + Joined(ms);
      assert ReplyOf(ms + [m]) == "[" + (Joined(ms) + "," + m.text) + "]";
    }
    hide Front, Last;
  }

  function Delivery(log: Log, sid: string): seq<Msg> { Above(log.msgs, log.Get(sid).cursor) }

  function ReadFrom(log: Log, sid: string): Log {
    var got := Delivery(log, sid);
    log.Put(sid, if got == [] then log.Get(sid) else log.Get(sid).(cursor := Last(got).id))
  }

  /** Adding a word that is not empty and not there yet. */
  function AddWord(words: seq<string>, w: string): seq<string> {
    if w == "" || w in words then words else words + [w]
  }

  function AddWords(words: seq<string>, more: seq<string>): seq<string> {
    if more == [] then words else AddWord(AddWords(words, Front(more)), Last(more))
  }

  datatype Event =
    | Write(text: string)
    | Read(sid: string)
    | Clear
    | ClearWords(sid: string)
    | PushBack(sid: string, words: seq<string>)
    | WriteHostInfo(sid: string, host: string)
    | SetKillFlag(sid: string, flag: bool)
    | LookUp(sid: string)

  function Exec(log: Log, e: Event): Log {
    match e
    case Write(text) => WriteTo(log, text)
    case Read(sid) => ReadFrom(log, sid)
    case Clear => Log([], map[], log.next)
    case ClearWords(sid) => log.Put(sid, log.Get(sid).(words := []))
    case PushBack(sid, words) => Pushed(log, sid, words)
    case WriteHostInfo(sid, host) => log.Put(sid, log.Get(sid).(words := log.Get(sid).words + [host]))
    case SetKillFlag(sid, flag) => log.Put(sid, log.Get(sid).(kill := flag))
    case LookUp(sid) => log.Put(sid, log.Get(sid))
  }

  /** The session is only looked up when there is a word to add. */
  function Pushed(log: Log, sid: string, words: seq<string>): Log {
    if forall i :: 0 <= i < |words| ==> words[i] == "" then log
    else log.Put(sid, log.Get(sid).(words := AddWords(log.Get(sid).words, words)))
  }

  // ---------------------------------------------------------------------------------
  // Whole runs.

  function After(es: seq<Event>): Log
    decreases |es|
  {
    if es == [] then EMPTY else Exec(After(Front(es)), Last(es))
  }

  /** Every text ever written; the message with id k carries text k. */
  function Written(es: seq<Event>): seq<string>
    decreases |es|
  {
    if es == [] then [] else Written(Front(es)) + if Last(es).Write? then [Last(es).text] else []
  }

  /** What the reads of one session have returned, in order. */
  function Received(es: seq<Event>, sid: string): seq<Msg>
    decreases |es|
  {
    if es == [] then [] else
    Received(Front(es), sid) + if Last(es) == Read(sid) then Delivery(After(Front(es)), sid) else []
  }

  /** How much had been written when the log was last cleared. */
  function Base(es: seq<Event>): nat
    decreases |es|
  {
    if es == [] then 0 else if Last(es).Clear? then |Written(Front(es))| else Base(Front(es))
  }

  /** The ids retained are consecutive and end at next - 1. */
  predicate Consecutive(msgs: seq<Msg>, next: int) {
    forall k :: 0 <= k < |msgs| ==> msgs[k].id == next - |msgs| + k
  }

  /** A message that was written, under its number. */
  predicate IsWritten(m: Msg, written: seq<string>) { 0 <= m.id < |written| && m.text == written[m.id] }

  predicate AllWritten(msgs: seq<Msg>, written: seq<string>) {
    forall k :: 0 <= k < |msgs| ==> IsWritten(msgs[k], written)
  }

  /** The log after a run: it holds the newest messages written, is never longer than 2001, and
      was trimmed to no fewer than 1002 if not all since the last clearing are there. */
  predicate Sound(log: Log, written: seq<string>, base: nat) {
    && log.next == |written| && base <= |written|
    && Consecutive(log.msgs, log.next) && AllWritten(log.msgs, written)
    && |log.msgs| <= |written| - base && |log.msgs| <= LIMIT + 1
    && (|log.msgs| == |written| - base || |log.msgs| >= DROPPED + 2)
  }

  predicate CursorsInRange(log: Log) {
    forall sid :: sid in log.sessions ==> 0 <= log.sessions[sid].cursor && (log.sessions[sid].cursor < log.next || log.sessions[sid].cursor == 0)
  }

  lemma SoundWrite(log: Log, written: seq<string>, base: nat, text: string)
    requires Sound(log, written, base)
    ensures Sound(WriteTo(log, text), written + [text], base)
  {
  }

  lemma SoundOther(log: Log, written: seq<string>, base: nat, e: Event)
    requires Sound(log, written, base) && !e.Write? && !e.Clear?
    ensures Sound(Exec(log, e), written, base)
  {
    hide Sound;
    assert Exec(log, e).msgs == log.msgs && Exec(log, e).next == log.next;
    SoundDepends(log, Exec(log, e), written, base);
  }

  lemma SoundDepends(log: Log, log': Log, written: seq<string>, base: nat)
    requires Sound(log, written, base) && log.msgs == log'.msgs && log.next == log'.next
    ensures Sound(log', written, base)
  {
  }

  lemma CursorsStep(log: Log, e: Event)
    requires CursorsInRange(log) && Consecutive(log.msgs, log.next) && |log.msgs| <= log.next
    ensures CursorsInRange(Exec(log, e))
  {
    hide Consecutive, Above;
    if e.Read? {
      ReadInRange(log, e.sid);
    }
  }

  /** Over whole runs: the ids retained are consecutive and end at the last one given, the size
      never exceeds 2001, and no cursor is past the log. */
  lemma {:induction false} SoundRun(es: seq<Event>)
    ensures Sound(After(es), Written(es), Base(es)) && CursorsInRange(After(es))
    decreases |es|
  {
    if es != [] {
      SoundRun(Front(es));
      var log, written, base := After(Front(es)), Written(Front(es)), Base(Front(es));
      CursorsStep(log, Last(es));
      if Last(es).Write? {
        SoundWrite(log, written, base, Last(es).text);
      } else if !Last(es).Clear? {
        SoundOther(log, written, base, Last(es));
      }
    }
  }

  /** A read that returns something ends with the newest message. */
  lemma LastAbove(msgs: seq<Msg>, next: int, cursor: int)
    requires Consecutive(msgs, next)
    ensures var got := Above(msgs, cursor);
      got == [] || (msgs != [] && Last(got) == Last(msgs) && Last(got).id == next - 1)
  {
    AboveIsTail(msgs, next, cursor);
    hide Above;
  }

  lemma ReadInRange(log: Log, sid: string)
    requires CursorsInRange(log) && Consecutive(log.msgs, log.next) && |log.msgs| <= log.next
    ensures CursorsInRange(ReadFrom(log, sid))
  {
    LastAbove(log.msgs, log.next, log.Get(sid).cursor);
    hide Above, Consecutive;
    assert forall other :: other in log.sessions && other != sid ==>
      ReadFrom(log, sid).sessions[other] == log.sessions[other];
  }

  // ---------------------------------------------------------------------------------
  // What one read returns.

  /** How many of n consecutive messages, the last with id next - 1, a cursor has passed. */
  function Passed(n: nat, next: int, cursor: int): (p: nat)
    ensures p <= n
  {
    if cursor < next - n then 0 else if cursor < next then cursor + 1 - (next - n) else n
  }

  /** With consecutive ids, the messages above a cursor are a tail of the log. */
  lemma {:induction false} AboveIsTail(msgs: seq<Msg>, next: int, cursor: int)
    requires Consecutive(msgs, next)
    ensures Above(msgs, cursor) == msgs[Passed(|msgs|, next, cursor)..]
    decreases |msgs|
  {
    if msgs == [] {
      assert Above(msgs, cursor) == [];
    } else {
      hide Above, Consecutive;
      AboveIsTail(Front(msgs), next - 1, cursor);
      if cursor < next - 1 {
        assert Front(msgs)[Passed(|msgs| - 1, next - 1, cursor)..] + [Last(msgs)] == msgs[Passed(|msgs| - 1, next - 1, cursor)..];
      }
    }
  }

  /** The messages with ids lo to hi - 1, as they were written. */
  function Range(written: seq<string>, lo: int, hi: int): (r: seq<Msg>)
    requires 0 <= lo && hi <= |written|
  {
    if hi <= lo then [] else Range(written, lo, hi - 1) + [Msg(hi - 1, written[hi - 1])]
  }

  lemma {:induction false} RangeIs(written: seq<string>, lo: int, hi: int)
    requires 0 <= lo && hi <= |written|
    ensures |Range(written, lo, hi)| == if hi <= lo then 0 else hi - lo
    ensures forall k :: 0 <= k < |Range(written, lo, hi)| ==> Range(written, lo, hi)[k] == Msg(lo + k, written[lo + k])
    decreases hi - lo
  {
    if lo < hi {
      RangeIs(written, lo, hi - 1);
    }
  }

  lemma TailIsRange(msgs: seq<Msg>, written: seq<string>, p: nat)
    requires Consecutive(msgs, |written|) && AllWritten(msgs, written) && p <= |msgs| <= |written|
    ensures msgs[p..] == Range(written, |written| - |msgs| + p, |written|)
  {
    var lo := |written| - |msgs| + p;
    var r := Range(written, lo, |written|);
    RangeIs(written, lo, |written|);
    hide Range;
    forall k | 0 <= k < |r| ensures msgs[p..][k] == r[k] {
      assert IsWritten(msgs[p + k], written);
    }
  }

  /** Where a read starts: at its cursor, or at the oldest message retained if that is later. */
  function ReadsFrom(log: Log, sid: string): int {
    var first, cursor := log.next - |log.msgs|, log.Get(sid).cursor;
    if cursor < first then first else cursor + 1
  }

  lemma ReadsBehindPassed(log: Log, written: seq<string>, base: nat, sid: string)
    requires Sound(log, written, base) && CursorsInRange(log)
    ensures var p, from := Passed(|log.msgs|, log.next, log.Get(sid).cursor), ReadsFrom(log, sid);
      from >= 1 && (from == |written| - |log.msgs| + p || (p == |log.msgs| && from >= |written|))
  {
    hide Consecutive, AllWritten;
  }

  /** A read returns all messages written from there on, and nothing else. */
  lemma DeliveryIsRange(log: Log, written: seq<string>, base: nat, sid: string)
    requires Sound(log, written, base) && CursorsInRange(log)
    ensures ReadsFrom(log, sid) >= 1
    ensures Delivery(log, sid) == Range(written, ReadsFrom(log, sid), |written|)
  {
    hide Above, Consecutive, AllWritten, CursorsInRange, ReadsFrom, Passed;
    var p := Passed(|log.msgs|, log.next, log.Get(sid).cursor);
    ReadsBehindPassed(log, written, base, sid);
    AboveIsTail(log.msgs, log.next, log.Get(sid).cursor);
    TailIsRange(log.msgs, written, p);
  }

  // ---------------------------------------------------------------------------------
  // No message twice.

  /** Reading places only move forward, and a read moves its session's to the end. */
  lemma ReadsFromStep(log: Log, written: seq<string>, base: nat, e: Event, sid: string)
    requires Sound(log, written, base) && CursorsInRange(log)
    ensures log.next <= Exec(log, e).next && ReadsFrom(log, sid) <= ReadsFrom(Exec(log, e), sid)
    ensures e == Read(sid) ==> ReadsFrom(Exec(log, e), sid) >= log.next
  {
    hide Above, Consecutive, AllWritten, ReadsFrom, Exec, Sound;
    if e.Read? {
      ReadsFromRead(log, written, base, e.sid, sid);
    } else {
      ReadsFromOther(log, written, base, e, sid);
    }
  }

  lemma ReadsFromRead(log: Log, written: seq<string>, base: nat, reader: string, sid: string)
    requires Sound(log, written, base) && CursorsInRange(log)
    ensures var log' := Exec(log, Read(reader));
      log'.next == log.next && ReadsFrom(log, sid) <= ReadsFrom(log', sid)
        && (reader == sid ==> ReadsFrom(log', sid) >= log.next)
  {
    TouchesMessages(log, Read(reader));
    if reader == sid {
      ReadMoves(log, sid);
    } else {
      OtherCursor(log, Read(reader), sid);
    }
    hide Exec, Consecutive, AllWritten;
  }

  /** A read that finds something moves its cursor to the newest message. */
  lemma ReadMoves(log: Log, sid: string)
    requires Consecutive(log.msgs, log.next)
    ensures var cursor := log.Get(sid).cursor;
      Exec(log, Read(sid)).Get(sid).cursor ==
        if log.msgs != [] && cursor < log.next - 1 then log.next - 1 else cursor
  {
    hide Above, Consecutive;
    var cursor := log.Get(sid).cursor;
    LastAbove(log.msgs, log.next, cursor);
    AboveEmpty(log.msgs, log.next, cursor);
  }

  lemma AboveEmpty(msgs: seq<Msg>, next: int, cursor: int)
    requires Consecutive(msgs, next)
    ensures Above(msgs, cursor) == [] <==> msgs == [] || cursor >= next - 1
  {
    AboveIsTail(msgs, next, cursor);
    hide Above, Consecutive;
    assert |msgs[Passed(|msgs|, next, cursor)..]| == |msgs| - Passed(|msgs|, next, cursor);
  }

  lemma ReadsFromOther(log: Log, written: seq<string>, base: nat, e: Event, sid: string)
    requires Sound(log, written, base) && CursorsInRange(log) && !e.Read?
    ensures log.next <= Exec(log, e).next && ReadsFrom(log, sid) <= ReadsFrom(Exec(log, e), sid)
  {
    TouchesOnly(log, e, sid);
    TouchesMessages(log, e);
    hide Exec, Above, Consecutive, AllWritten;
  }

  predicate Increasing(ms: seq<Msg>) { forall i, j :: 0 <= i < j < |ms| ==> ms[i].id < ms[j].id }

  predicate AllBelow(ms: seq<Msg>, id: int) { forall k :: 0 <= k < |ms| ==> 1 <= ms[k].id < id }

  lemma RangeIncreasing(written: seq<string>, lo: int)
    requires 1 <= lo
    ensures var r := Range(written, lo, |written|);
      Increasing(r) && AllWritten(r, written) && AllBelow(r, |written|) && AllAbove(r, lo)
  {
    RangeIs(written, lo, |written|);
    hide Range;
  }

  predicate AllAbove(ms: seq<Msg>, id: int) { forall k :: 0 <= k < |ms| ==> id <= ms[k].id }

  lemma Joins(a: seq<Msg>, b: seq<Msg>, written: seq<string>, lo: int, hi: int)
    requires Increasing(a) && AllWritten(a, written) && AllBelow(a, lo)
    requires Increasing(b) && AllWritten(b, written) && AllBelow(b, hi) && AllAbove(b, lo)
    ensures Increasing(a + b) && AllWritten(a + b, written)
    ensures AllBelow(a + b, if lo < hi then hi else lo)
  {
    hide IsWritten;
    forall k | 0 <= k < |a + b|
      ensures IsWritten((a + b)[k], written) && 1 <= (a + b)[k].id && (if lo < hi then (a + b)[k].id < hi else (a + b)[k].id < lo)
    {
      if k < |a| {
        assert IsWritten(a[k], written) && 1 <= a[k].id < lo;
      } else {
        assert IsWritten(b[k - |a|], written) && 1 <= b[k - |a|].id < hi && lo <= b[k - |a|].id;
      }
    }
  }

  lemma BelowWeakens(ms: seq<Msg>, lo: int, hi: int)
    requires AllBelow(ms, lo) && lo <= hi
    ensures AllBelow(ms, hi)
  {
  }

  /** Whatever is written and cleared in between, the messages a session receives have ever higher
      ids, and are the messages written under those ids: none comes twice, and id 0 never comes. */
  lemma {:induction false} NoneTwice(es: seq<Event>, sid: string)
    ensures Increasing(Received(es, sid)) && AllWritten(Received(es, sid), Written(es))
    ensures AllBelow(Received(es, sid), ReadsFrom(After(es), sid))
    decreases |es|
  {
    if es != [] {
      var fs := Front(es);
      NoneTwice(fs, sid);
      SoundRun(fs);
      var log, got, written := After(fs), Received(fs, sid), Written(fs);
      var from, from' := ReadsFrom(log, sid), ReadsFrom(After(es), sid);
      ReadsFromStep(log, written, Base(fs), Last(es), sid);
      if Last(es) == Read(sid) {
        DeliveryIsRange(log, written, Base(fs), sid);
        RangeIncreasing(written, from);
        hide Exec, Sound, CursorsInRange, ReadsFrom, Range, Delivery, Increasing, AllWritten, AllBelow, AllAbove;
        Joins(got, Delivery(log, sid), written, from, |written|);
        BelowWeakens(got + Delivery(log, sid), if from < |written| then |written| else from, from');
        assert Written(es) == written;
      } else {
        hide Exec, Sound, CursorsInRange, ReadsFrom, Range, Delivery, Increasing, AllWritten, AllBelow, AllAbove;
        assert AllWritten(got, written + (if Last(es).Write? then [Last(es).text] else []));
        BelowWeakens(got, from, from');
        assert Received(es, sid) == got;
      }
    }
  }

  // ---------------------------------------------------------------------------------
  // No message missed.

  /** How many messages are retained of w written since the log was last cleared. */
  function Retained(w: nat): (n: nat)
    ensures n <= w && n <= LIMIT + 1
    ensures n == w || n >= DROPPED + 2
  {
    if w <= LIMIT + 1 then w else DROPPED + 2 + (w - LIMIT - 2) % DROPPED
  }

  /** One more write, trimming included. */
  lemma RetainedNext(w: nat)
    ensures Retained(w + 1) == (if Retained(w) > LIMIT then Retained(w) - DROPPED else Retained(w)) + 1
  {
    if w > LIMIT + 1 {
      var r := (w - LIMIT - 2) % DROPPED;
      assert w - LIMIT - 2 == (w - LIMIT - 2) / DROPPED * DROPPED + r;
    }
  }

  /** On every run the length of the log is known from two counts. */
  lemma {:induction false} RetainedRun(es: seq<Event>)
    ensures Base(es) <= |Written(es)| && |After(es).msgs| == Retained(|Written(es)| - Base(es))
    decreases |es|
  {
    if es != [] {
      RetainedRun(Front(es));
      RetainedNext(|Written(Front(es))| - Base(Front(es)));
      hide Above, AddWords, Retained;
      if Last(es).Clear? {
        NoneRetained();
      }
    } else {
      NoneRetained();
    }
  }

  lemma NoneRetained()
    ensures Retained(0) == 0
  {
  }

  /** How many messages were written since the session last read, or the log was last cleared. */
  function Gap(es: seq<Event>, sid: string): (n: nat)
    ensures n <= |Written(es)| - Base(es)
    decreases |es|
  {
    if es == [] || Last(es) == Read(sid) || Last(es).Clear? then BaseInRange(es); 0 else
    Gap(Front(es), sid) + if Last(es).Write? then 1 else 0
  }

  lemma {:induction false} BaseInRange(es: seq<Event>)
    ensures Base(es) <= |Written(es)|
    decreases |es|
  {
    if es != [] { BaseInRange(Front(es)); }
  }

  /** What the session has received since the log was last cleared. */
  function SinceClear(es: seq<Event>, sid: string): seq<Msg>
    decreases |es|
  {
    if es == [] || Last(es).Clear? then [] else
    SinceClear(Front(es), sid) + if Last(es) == Read(sid) then Delivery(After(Front(es)), sid) else []
  }

  /** The first id a session can receive: ids below the clearing are gone, and 0 is never sent. */
  function FirstId(es: seq<Event>): int { if Base(es) < 1 then 1 else Base(es) }

  function Seen(es: seq<Event>, sid: string): nat { |Written(es)| - Gap(es, sid) }

  lemma {:induction false} RangeSplits(written: seq<string>, lo: int, mid: int, hi: int)
    requires 0 <= lo <= mid && hi <= |written| && (mid <= hi || hi <= lo)
    ensures mid <= hi ==> Range(written, lo, mid) + Range(written, mid, hi) == Range(written, lo, hi)
    decreases hi - mid
  {
    if mid < hi {
      RangeSplits(written, lo, mid, hi - 1);
    } else if mid == hi {
      assert Range(written, mid, hi) == [];
    }
  }

  lemma {:induction false} RangeKept(written: seq<string>, more: seq<string>, lo: int, hi: int)
    requires 0 <= lo && hi <= |written|
    ensures Range(written + more, lo, hi) == Range(written, lo, hi)
    decreases hi - lo
  {
    if lo < hi {
      RangeKept(written, more, lo, hi - 1);
    }
  }

  /** The cursor of a session that has missed nothing. */
  predicate CursorAt(log: Log, sid: string, firstId: int, seen: int) {
    log.Get(sid).cursor == if firstId < seen then seen - 1 else 0
  }

  /** A read returns nothing exactly when the cursor has passed the whole log. */
  lemma NothingAbove(msgs: seq<Msg>, next: int, cursor: int)
    requires Consecutive(msgs, next)
    ensures Above(msgs, cursor) == [] <==> msgs == [] || cursor >= next - 1
  {
    AboveIsTail(msgs, next, cursor);
    hide Above, Consecutive;
  }

  lemma CursorRead(log: Log, written: seq<string>, base: nat, sid: string, firstId: int, seen: int)
    requires Sound(log, written, base) && CursorAt(log, sid, firstId, seen)
    requires firstId == if base < 1 then 1 else base
    requires seen <= |written|
    ensures CursorAt(ReadFrom(log, sid), sid, firstId, |written|)
  {
    var cursor := log.Get(sid).cursor;
    LastAbove(log.msgs, log.next, cursor);
    NothingAbove(log.msgs, log.next, cursor);
    hide Above, Consecutive, AllWritten;
    var got := Delivery(log, sid);
    assert ReadFrom(log, sid).Get(sid).cursor == if got == [] then cursor else log.next - 1;
    hide ReadFrom, Delivery;
  }

  /** What is new to a session that has missed nothing: the ids from here on. */
  function NewFrom(firstId: int, seen: int): int { if firstId < seen then seen else firstId }

  function Later(a: int, b: int): int { if a < b then b else a }

  lemma ReadsFromNew(log: Log, written: seq<string>, base: nat, sid: string, firstId: int, seen: int)
    requires Sound(log, written, base) && CursorAt(log, sid, firstId, seen)
    requires firstId == if base < 1 then 1 else base
    requires base <= seen <= |written|
    ensures ReadsFrom(log, sid) == Later(NewFrom(firstId, seen), |written| - |log.msgs|)
    ensures |log.msgs| <= |written|
  {
    hide Consecutive, AllWritten;
  }

  /** Two ranges up to the end are the same exactly when they start together or are both empty. */
  lemma RangesEqual(written: seq<string>, lo: int, hi: int)
    requires 0 <= lo <= hi
    ensures Range(written, hi, |written|) == Range(written, lo, |written|) <==> lo == hi || |written| <= lo
    ensures |Range(written, hi, |written|)| == if |written| <= hi then 0 else |written| - hi
  {
    RangeIs(written, lo, |written|);
    RangeIs(written, hi, |written|);
  }

  /** What a read finds: the new messages that are still retained. It finds all of them exactly when
      there are none, or the log still reaches back to the first. */
  lemma ReadsAllNew(log: Log, written: seq<string>, base: nat, sid: string, firstId: int, seen: int)
    requires Sound(log, written, base) && CursorsInRange(log) && CursorAt(log, sid, firstId, seen)
    requires firstId == if base < 1 then 1 else base
    requires base <= seen <= |written|
    ensures var first, from := |written| - |log.msgs|, NewFrom(firstId, seen);
      && first >= 0
      && Delivery(log, sid) == Range(written, Later(from, first), |written|)
      && (Delivery(log, sid) == Range(written, from, |written|) <==> |written| <= from || first <= from)
  {
    hide Range, Delivery, CursorsInRange, CursorAt, Sound, ReadsFrom;
    var first, from := |written| - |log.msgs|, NewFrom(firstId, seen);
    ReadsFromNew(log, written, base, sid, firstId, seen);
    DeliveryIsRange(log, written, base, sid);
    RangesEqual(written, from, Later(from, first));
  }

  /** Whether a read by the session now finds everything that is new to it, from counts alone. */
  predicate InTime(es: seq<Event>, sid: string) {
    BaseInRange(es);
    var from := NewFrom(FirstId(es), Seen(es, sid));
    |Written(es)| <= from || |Written(es)| - Retained(|Written(es)| - Base(es)) <= from
  }

  /** Every read of the session since the log was last cleared came in time. */
  predicate AllInTime(es: seq<Event>, sid: string)
    decreases |es|
  {
    es == [] || Last(es).Clear? ||
    (AllInTime(Front(es), sid) && (Last(es) == Read(sid) ==> InTime(Front(es), sid)))
  }

  /** On every run the cursor is behind the last message written before the last read. */
  lemma {:induction false} CursorRun(es: seq<Event>, sid: string)
    ensures CursorAt(After(es), sid, FirstId(es), Seen(es, sid))
    decreases |es|
  {
    if es != [] && !Last(es).Clear? {
      var fs := Front(es);
      CursorRun(fs, sid);
      if Last(es) == Read(sid) {
        SoundRun(fs);
        CursorRead(After(fs), Written(fs), Base(fs), sid, FirstId(fs), Seen(fs, sid));
        hide Sound, CursorsInRange, ReadFrom, CursorAt;
        assert After(es) == ReadFrom(After(fs), sid);
      } else {
        OtherCursor(After(fs), Last(es), sid);
        hide Exec;
      }
    }
  }

  /** A read on any run returns the new messages that are retained, and is complete if and only if
      it comes in time. */
  lemma ReadCompleteIffInTime(es: seq<Event>, sid: string)
    ensures var from, first := NewFrom(FirstId(es), Seen(es, sid)), |Written(es)| - |After(es).msgs|;
      && first >= 0
      && Delivery(After(es), sid) == Range(Written(es), Later(from, first), |Written(es)|)
      && (Delivery(After(es), sid) == Range(Written(es), from, |Written(es)|) <==> InTime(es, sid))
      && (InTime(es, sid) <==> |Written(es)| <= from || first <= from)
  {
    hide After, Written, Base, Gap, Sound, CursorsInRange, CursorAt, Delivery, Range, Retained;
    SoundRun(es);
    RetainedRun(es);
    CursorRun(es, sid);
    ReadsAllNew(After(es), Written(es), Base(es), sid, FirstId(es), Seen(es, sid));
  }

  /** What has been received since the clearing is everything, up to what was seen. */
  predicate UpToDate(es: seq<Event>, sid: string) {
    SinceClear(es, sid) == Range(Written(es), FirstId(es), Seen(es, sid))
  }

  lemma UpToDateRead(es: seq<Event>, sid: string)
    requires es != [] && Last(es) == Read(sid) && UpToDate(Front(es), sid) && InTime(Front(es), sid)
    ensures UpToDate(es, sid)
  {
    var fs := Front(es);
    var written, seen, firstId := Written(fs), Seen(fs, sid), FirstId(fs);
    assert Written(es) == written && FirstId(es) == firstId && Seen(es, sid) == |written|;
    hide InTime, Range, Delivery, After, Written, Base, Gap, FirstId, Seen;
    ReadCompleteIffInTime(fs, sid);
    if firstId < seen {
      RangeSplits(written, firstId, seen, |written|);
    } else {
      RangeEmpty(written, firstId, seen);
    }
  }

  lemma RangeEmpty(written: seq<string>, lo: int, hi: int)
    requires 0 <= lo && hi <= |written| && hi <= lo
    ensures Range(written, lo, hi) == []
  {
  }

  lemma UpToDateOther(es: seq<Event>, sid: string)
    requires es != [] && Last(es) != Read(sid) && !Last(es).Clear? && UpToDate(Front(es), sid)
    ensures UpToDate(es, sid)
  {
    hide Range, Delivery, After;
    var fs, more := Front(es), if Last(es).Write? then [Last(es).text] else [];
    hide Written, Base, Gap, FirstId, Seen, SinceClear;
    RangeKept(Written(fs), more, FirstId(fs), Seen(fs, sid));
  }

  /** Only a session's own reads, and a clearing, touch its cursor. */
  lemma OtherCursor(log: Log, e: Event, sid: string)
    requires e != Read(sid) && !e.Clear?
    ensures Exec(log, e).Get(sid).cursor == log.Get(sid).cursor
  {
  }

  lemma UpToDateStart(es: seq<Event>, sid: string)
    requires es == [] || Last(es).Clear?
    ensures UpToDate(es, sid)
  {
    RangeEmpty(Written(es), FirstId(es), Seen(es, sid));
    hide Range;
  }

  lemma {:induction false} StaysUpToDate(es: seq<Event>, sid: string)
    requires AllInTime(es, sid)
    ensures UpToDate(es, sid)
    decreases |es|
  {
    hide UpToDate, InTime;
    if es == [] || Last(es).Clear? {
      UpToDateStart(es, sid);
    } else {
      StaysUpToDate(Front(es), sid);
      if Last(es) == Read(sid) {
        UpToDateRead(es, sid);
      } else {
        UpToDateOther(es, sid);
      }
    }
  }

  /** How many messages a session that missed none has received since the clearing. */
  function Due(es: seq<Event>, sid: string): nat {
    if FirstId(es) < Seen(es, sid) then Seen(es, sid) - FirstId(es) else 0
  }

  lemma ReadLength(es: seq<Event>, sid: string)
    ensures var total := |Written(es)|; var from := NewFrom(FirstId(es), Seen(es, sid));
      var start := Later(from, total - |After(es).msgs|);
      && |Delivery(After(es), sid)| == (if total <= start then 0 else total - start)
      && (InTime(es, sid) <==> total <= from || total - |After(es).msgs| <= from)
      && |After(es).msgs| <= total && Seen(es, sid) <= total
  {
    hide After, Written, Base, Gap, InTime, Delivery, Range, FirstId;
    ReadCompleteIffInTime(es, sid);
    RangeIs(Written(es), Later(NewFrom(FirstId(es), Seen(es, sid)), |Written(es)| - |After(es).msgs|), |Written(es)|);
  }

  lemma AfterRead(es: seq<Event>, sid: string)
    requires es != [] && Last(es) == Read(sid)
    ensures FirstId(es) == FirstId(Front(es)) && Seen(es, sid) == |Written(Front(es))|
  {
  }

  /** One read, by counts: it brings all that is due if in time, and fewer if not. */
  lemma CountRead(es: seq<Event>, sid: string)
    requires es != [] && Last(es) == Read(sid)
    ensures var n := |Delivery(After(Front(es)), sid)|; var due := Due(es, sid) - Due(Front(es), sid);
      if InTime(Front(es), sid) then n == due else n < due
  {
    hide After, Written, InTime, Delivery, FirstId, Seen;
    AfterRead(es, sid);
    ReadLength(Front(es), sid);
    NewFromPositive(Front(es), sid);
  }

  lemma NewFromPositive(es: seq<Event>, sid: string)
    ensures NewFrom(FirstId(es), Seen(es, sid)) >= 0
  {
  }

  lemma {:induction false} Counted(es: seq<Event>, sid: string)
    ensures if AllInTime(es, sid) then |SinceClear(es, sid)| == Due(es, sid) else |SinceClear(es, sid)| < Due(es, sid)
    decreases |es|
  {
    hide InTime, Due, Delivery;
    if es == [] || Last(es).Clear? {
      NothingDue(es, sid);
    } else {
      Counted(Front(es), sid);
      if Last(es) == Read(sid) {
        CountRead(es, sid);
      } else {
        SameDue(es, sid);
      }
    }
  }

  lemma NothingDue(es: seq<Event>, sid: string)
    requires es == [] || Last(es).Clear?
    ensures Due(es, sid) == 0
  {
  }

  lemma SameDue(es: seq<Event>, sid: string)
    requires es != [] && Last(es) != Read(sid) && !Last(es).Clear?
    ensures Due(es, sid) == Due(Front(es), sid)
  {
  }

  /** On every run: a session has received everything up to its last read, once and in order, if and
      only if each of its reads since the log was last cleared came in time. */
  lemma NoneMissedIffInTime(es: seq<Event>, sid: string)
    ensures SinceClear(es, sid) == Range(Written(es), FirstId(es), Seen(es, sid)) <==> AllInTime(es, sid)
  {
    Counted(es, sid);
    RangeIs(Written(es), FirstId(es), Seen(es, sid));
    if AllInTime(es, sid) {
      StaysUpToDate(es, sid);
    }
    hide AllInTime, SinceClear, Range, Written;
  }

  const WINDOW: nat := 1002

  /** Every read of the session comes after at most 1002 writes. */
  predicate Attentive(es: seq<Event>, sid: string)
    decreases |es|
  {
    es == [] || (Attentive(Front(es), sid) && (Last(es) == Read(sid) ==> Gap(Front(es), sid) <= WINDOW))
  }

  lemma {:induction false} AttentiveIsInTime(es: seq<Event>, sid: string)
    requires Attentive(es, sid)
    ensures AllInTime(es, sid)
    decreases |es|
  {
    if es != [] {
      AttentiveIsInTime(Front(es), sid);
      hide Written, Base, Gap, Retained;
    }
  }

  /** In particular, a session that reads at least once per 1002 writes has, after each of its reads,
      received every message written since the log was last cleared, but for id 0. */
  lemma NoneMissed(es: seq<Event>, sid: string)
    requires es != [] && Last(es) == Read(sid) && Attentive(es, sid)
    ensures SinceClear(es, sid) == Range(Written(es), FirstId(es), |Written(es)|)
  {
    AttentiveIsInTime(es, sid);
    NoneMissedIffInTime(es, sid);
    hide Range, Attentive, AllInTime, SinceClear;
  }

  // ---------------------------------------------------------------------------------
  // 1002 is as many as there may be.

  function Writes(n: nat): seq<Event> { if n == 0 then [] else Writes(n - 1) + [Write("")] }

  lemma RunSnoc(es: seq<Event>, e: Event, sid: string)
    ensures After(es + [e]) == Exec(After(es), e)
    ensures SinceClear(es + [e], sid) ==
      (if e.Clear? then [] else SinceClear(es, sid) + if e == Read(sid) then Delivery(After(es), sid) else [])
  {
    assert Front(es + [e]) == es;
    hide Exec, Delivery;
  }

  lemma OneWrite(es: seq<Event>, sid: string)
    ensures var log, log' := After(es), After(es + [Write("")]);
      && log'.next == log.next + 1
      && |log'.msgs| == (if |log.msgs| > LIMIT then |log.msgs| - DROPPED else |log.msgs|) + 1
    ensures SinceClear(es + [Write("")], sid) == SinceClear(es, sid)
  {
    RunSnoc(es, Write(""), sid);
    hide After, SinceClear, Delivery;
  }

  lemma WritesSnoc(es: seq<Event>, n: nat)
    requires n > 0
    ensures es + Writes(n) == es + Writes(n - 1) + [Write("")]
  {
  }

  /** Writes that keep the log within its bound are all retained. */
  lemma {:induction false} ManyWrites(es: seq<Event>, n: nat, sid: string)
    requires |After(es).msgs| + n <= LIMIT + 1
    ensures var log := After(es + Writes(n));
      |log.msgs| == |After(es).msgs| + n && log.next == After(es).next + n
    ensures SinceClear(es + Writes(n), sid) == SinceClear(es, sid)
    decreases n
  {
    hide After, SinceClear;
    if n == 0 {
      assert es + Writes(0) == es;
    } else {
      hide Writes;
      ManyWrites(es, n - 1, sid);
      WritesSnoc(es, n);
      OneWrite(es + Writes(n - 1), sid);
    }
  }

  predicate IdsWithin(ms: seq<Msg>, lo: int, hi: int) { forall k :: 0 <= k < |ms| ==> lo <= ms[k].id < hi }

  /** A read returns ids of messages still in the log. */
  lemma OneRead(es: seq<Event>, sid: string)
    ensures var log := After(es);
      && |After(es + [Read(sid)]).msgs| == |log.msgs| && After(es + [Read(sid)]).next == log.next
      && IdsWithin(Delivery(log, sid), log.next - |log.msgs|, log.next)
      && SinceClear(es + [Read(sid)], sid) == SinceClear(es, sid) + Delivery(log, sid)
  {
    hide After, SinceClear, Written, Range, Delivery, Consecutive, AllWritten, CursorsInRange, Base;
    RunSnoc(es, Read(sid), sid);
    SoundRun(es);
    var log := After(es);
    DeliveryIsRange(log, Written(es), Base(es), sid);
    RangeIs(Written(es), ReadsFrom(log, sid), log.next);
  }

  lemma Start(sid: string)
    ensures After([]) == EMPTY && SinceClear([], sid) == []
  {
  }

  /** 999 messages and a read. */
  lemma EarlyPart(es: seq<Event>, sid: string)
    requires es == [] + Writes(999) + [Read(sid)]
    ensures |After(es).msgs| == 999 == After(es).next && IdsWithin(SinceClear(es, sid), 0, 999)
  {
    Start(sid);
    hide After, SinceClear, Writes, Delivery;
    ManyWrites([], 999, sid);
    OneRead([] + Writes(999), sid);
  }

  /** 1003 more messages and a read: the message with id 999 is gone. */
  lemma LatePart(es: seq<Event>, late: seq<Event>, sid: string)
    requires |After(es).msgs| == 999 == After(es).next
    requires late == es + Writes(1002) + [Write("")] + [Read(sid)]
    ensures After(late).next == 2002
    ensures exists got: seq<Msg> :: IdsWithin(got, 1000, 2002) && SinceClear(late, sid) == SinceClear(es, sid) + got
  {
    hide After, SinceClear, Writes, Delivery;
    ManyWrites(es, 1002, sid);
    OneWrite(es + Writes(1002), sid);
    OneRead(es + Writes(1002) + [Write("")], sid);
  }

  /** A session that lets 1003 writes pass between two reads can miss a message: after 999 writes,
      a read, 1003 writes and a read, the one with id 999 was written and has not arrived. */
  lemma OneWriteTooMany(sid: string)
    ensures var es := [] + Writes(999) + [Read(sid)] + Writes(1002) + [Write("")] + [Read(sid)];
      999 < After(es).next && forall m :: m in SinceClear(es, sid) ==> m.id != 999
  {
    hide After, SinceClear, Writes, Delivery;
    var early := [] + Writes(999) + [Read(sid)];
    var late := early + Writes(1002) + [Write("")] + [Read(sid)];
    EarlyPart(early, sid);
    LatePart(early, late, sid);
  }

  /** The first message ever written is still there, and a session that reads does not get it. */
  lemma FirstMessageWithheld(text: string, sid: string)
    ensures After([Write(text)]).msgs == [Msg(0, text)] && Delivery(After([Write(text)]), sid) == []
  {
    var es := [Write(text)];
    assert Front(es) == [] && After(es) == Exec(After([]), Write(text));
    assert After([]) == EMPTY;
    var ms := [Msg(0, text)];
    assert After(es).msgs == [] + ms == ms;
    assert ms[..0] == [] && Above([], 0) == [] && Above(ms, 0) == Above(ms[..0], 0) + [];
  }

  // ---------------------------------------------------------------------------------
  // The word list of a session.

  predicate Distinct(words: seq<string>) { forall i, j :: 0 <= i < j < |words| ==> words[i] != words[j] }

  /** The list keeps what it had, in place, and gains each new word once, the empty ones left out. */
  lemma {:induction false} AddWordsGains(words: seq<string>, more: seq<string>)
    ensures words <= AddWords(words, more)
    ensures forall w :: w in AddWords(words, more) <==> w in words || (w in more && w != "")
    ensures Distinct(words) ==> Distinct(AddWords(words, more))
    decreases |more|
  {
    if more != [] {
      AddWordsGains(words, Front(more));
      assert Front(more) + [Last(more)] == more;
    }
  }

  /** Words all there already add nothing. */
  lemma {:induction false} AddWordsKnown(words: seq<string>, more: seq<string>)
    requires forall w :: w in more ==> w in words || w == ""
    ensures AddWords(words, more) == words
    decreases |more|
  {
    if more != [] {
      AddWordsKnown(words, Front(more));
    }
  }

  lemma AddWordsTwice(words: seq<string>, more: seq<string>)
    ensures AddWords(AddWords(words, more), more) == AddWords(words, more)
  {
    AddWordsGains(words, more);
    AddWordsKnown(AddWords(words, more), more);
  }

  /** Later words come behind earlier ones. */
  lemma AddWordsInOrder(words: seq<string>, more: seq<string>, w: string)
    ensures AddWords(words, more) <= AddWords(words, more + [w])
    ensures w != "" && w !in words && w !in more ==> AddWords(words, more + [w]) == AddWords(words, more) + [w]
  {
    assert Front(more + [w]) == more && Last(more + [w]) == w;
    AddWordsGains(words, more);
    hide AddWords;
  }

  // ---------------------------------------------------------------------------------
  // What each operation touches.

  /** The sessions that an event looks up, and so makes if they are not there. */
  predicate LooksUp(e: Event, sid: string) {
    match e
    case Read(s) => s == sid
    case ClearWords(s) => s == sid
    case PushBack(s, words) => s == sid && exists i :: 0 <= i < |words| && words[i] != ""
    case WriteHostInfo(s, _) => s == sid
    case SetKillFlag(s, _) => s == sid
    case LookUp(s) => s == sid
    case _ => false
  }

  /** Field by field, what becomes of one session; one that is not there counts as fresh. */
  lemma TouchesOnly(log: Log, e: Event, sid: string)
    ensures sid !in log.sessions ==> log.Get(sid) == Session(0, "", [], false)
    ensures var log', s := Exec(log, e), log.Get(sid);
      var s' := log'.Get(sid);
      && (sid in log'.sessions <==> (sid in log.sessions || LooksUp(e, sid)) && e != Clear)
      && s'.ipaddr == (if e == Clear then "" else s.ipaddr)
      && s'.kill == (if e == Clear then false else if e.SetKillFlag? && e.sid == sid then e.flag else s.kill)
      && (e == Clear ==> s'.cursor == 0 && s'.words == [])
      && (e == ClearWords(sid) ==> s'.words == [])
      && (e.WriteHostInfo? && e.sid == sid ==> s'.words == s.words + [e.host])
      && (e.PushBack? && e.sid == sid ==> s'.words == AddWords(s.words, e.words))
      && (!((e.ClearWords? || e.PushBack? || e.WriteHostInfo?) && e.sid == sid) && e != Clear ==> s'.words == s.words)
      && (e != Clear && e != Read(sid) ==> s'.cursor == s.cursor)
  {
    if e.PushBack? && !LooksUp(e, sid) && e.sid == sid { AddWordsKnown(log.Get(sid).words, e.words); }
    hide AddWords, Delivery;
  }

  /** What becomes of the messages and the running number. */
  lemma TouchesMessages(log: Log, e: Event)
    ensures var log' := Exec(log, e);
      && (!e.Write? ==> log'.next == log.next && log'.msgs == if e == Clear then [] else log.msgs)
      && (e.Write? ==> log'.next == log.next + 1)
      && (e.Write? ==> log'.msgs == (if |log.msgs| > 2000 then log.msgs[1000..] else log.msgs) + [Msg(log.next, e.text)])
  {
    hide AddWords, Delivery;
  }
}
