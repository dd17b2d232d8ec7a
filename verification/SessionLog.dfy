/** The message log as the program has it: an object whose methods, each one atomic step under
    its lock, keep the messages, the sessions and the running number. */
module SessionLog {
  import opened Basics
  import opened MessageLog

  /** The sessions when the messages in got have been read so far. */
  ghost function Moved(log: Log, sid: string, got: seq<Msg>): map<string, Session> {
    log.Put(sid, if got == [] then log.Get(sid) else log.Get(sid).(cursor := Last(got).id)).sessions
  }

  lemma NothingRead(log: Log, sid: string)
    ensures Above(log.msgs[..0], log.Get(sid).cursor) == [] && Commas([]) == "" && Joined([]) == ""
    ensures Moved(log, sid, []) == Exec(log, LookUp(sid)).sessions
  {
  }

  lemma AboveNext(msgs: seq<Msg>, k: nat, id: int)
    requires k < |msgs|
    ensures Above(msgs[..k + 1], id) == Above(msgs[..k], id) + if msgs[k].id > id then [msgs[k]] else []
  {
    assert msgs[..k + 1][..k] == msgs[..k];
  }

  lemma CommasNext(got: seq<Msg>, m: Msg)
    ensures Commas(got + [m]) == Commas(got) + m.text + ","
  {
    assert (got + [m])[..|got|] == got;
  }

  lemma MovedNext(log: Log, sid: string, got: seq<Msg>, m: Msg)
    ensures sid in Moved(log, sid, got)
    ensures Moved(log, sid, got + [m]) == Moved(log, sid, got)[sid := Moved(log, sid, got)[sid].(cursor := m.id)]
  {
    var last := got + [m];
    assert Last(last) == m;
    hide Above, Commas, Log.Get;
  }

  lemma NextRead(log: Log, sid: string, msgs: seq<Msg>, k: nat)
    requires k < |msgs|
    ensures var id := log.Get(sid).cursor; var got, got' := Above(msgs[..k], id), Above(msgs[..k + 1], id);
      if msgs[k].id > id then
        && got' != [] && Commas(got') == Commas(got) + msgs[k].text + ","
        && sid in Moved(log, sid, got)
        && Moved(log, sid, got') == Moved(log, sid, got)[sid := Moved(log, sid, got)[sid].(cursor := msgs[k].id)]
      else got' == got
  {
    hide Above, Commas, Moved, Log.Get;
    var id := log.Get(sid).cursor;
    AboveNext(msgs, k, id);
    CommasNext(Above(msgs[..k], id), msgs[k]);
    MovedNext(log, sid, Above(msgs[..k], id), msgs[k]);
  }

  lemma AllRead(log: Log, sid: string)
    ensures var got := Delivery(log, sid);
      log.(sessions := Moved(log, sid, got)) == Exec(log, Read(sid)) && (got == [] ==> ReplyOf(got) == "[" + "" + "]")
  {
  }

  function WithWord(log: Log, sid: string, w: string): Log {
    log.Put(sid, log.Get(sid).(words := AddWord(log.Get(sid).words, w)))
  }

  lemma NothingPushed(log: Log, sid: string)
    ensures Pushed(log, sid, []) == log
  {
  }

  lemma AddWordsSnoc(words: seq<string>, more: seq<string>, w: string)
    ensures AddWords(words, more + [w]) == AddWord(AddWords(words, more), w)
  {
    hide AddWord;
    assert (more + [w])[..|more|] == more;
  }

  lemma PutTwice(log: Log, sid: string, s: Session, t: Session)
    ensures log.Put(sid, s).Put(sid, t) == log.Put(sid, t) && log.Put(sid, s).Get(sid) == s
  {
  }

  predicate AllEmpty(words: seq<string>) { forall i :: 0 <= i < |words| ==> words[i] == "" }

  lemma PushedIs(log: Log, sid: string, words: seq<string>)
    ensures AllEmpty(words) ==> Pushed(log, sid, words) == log
    ensures !AllEmpty(words) ==>
      Pushed(log, sid, words) == log.Put(sid, log.Get(sid).(words := AddWords(log.Get(sid).words, words)))
  {
    hide AddWords, Log.Get, Log.Put;
  }

  lemma PushedWord(log: Log, sid: string, words: seq<string>, w: string)
    requires w != ""
    ensures Pushed(log, sid, words + [w]) == WithWord(Pushed(log, sid, words), sid, w)
  {
    var s := log.Get(sid);
    assert !AllEmpty(words + [w]) by { assert (words + [w])[|words|] == w; }
    if AllEmpty(words) {
      AddWordsKnown(s.words, words);
    }
    hide Pushed, AddWords, AddWord, Log.Get, Log.Put, AllEmpty;
    PushedIs(log, sid, words);
    PushedIs(log, sid, words + [w]);
    AddWordsSnoc(s.words, words, w);
    PutTwice(log, sid, s.(words := AddWords(s.words, words)), s.(words := AddWord(AddWords(s.words, words), w)));
  }

  lemma PushedEmpty(log: Log, sid: string, words: seq<string>)
    ensures Pushed(log, sid, words + [""]) == Pushed(log, sid, words)
  {
    var more := words + [""];
    assert more[|words|] == "" && more[..|words|] == words;
    if exists i :: 0 <= i < |words| && words[i] != "" {
      var i :| 0 <= i < |words| && words[i] != "";
      assert more[i] == words[i];
    } else {
      assert forall i :: 0 <= i < |more| ==> more[i] == "";
    }
  }

  /** The pieces when the last one has one more character. */
  function Longer(pieces: seq<string>, c: char): seq<string>
    requires pieces != []
  {
    Front(pieces) + [Last(pieces) + [c]]
  }

  /** The pieces of a text between its spaces. */
  function Split(s: string): (pieces: seq<string>)
    ensures pieces != []
    decreases |s|
  {
    if s == "" then [""] else
    var pieces := Split(Front(s));
    if Last(s) == ' ' then pieces + [""] else Longer(pieces, Last(s))
  }

  /** The pieces with a space between any two. */
  function Spaced(pieces: seq<string>): string {
    if pieces == [] then "" else if |pieces| == 1 then pieces[0]
    else Spaced(Front(pieces)) + " " + Last(pieces)
  }

  predicate NoSpace(w: string) { forall i :: 0 <= i < |w| ==> w[i] != ' ' }

  lemma SplitSnoc(s: string)
    requires s != ""
    ensures Split(s) == if Last(s) == ' ' then Split(Front(s)) + [""] else Longer(Split(Front(s)), Last(s))
  {
    hide Front, Last, Longer;
  }

  lemma FrontLast(s: string)
    requires s != ""
    ensures s == Front(s) + [Last(s)]
  {
  }

  lemma SpacedLonger(pieces: seq<string>, c: char)
    requires pieces != []
    ensures Spaced(Longer(pieces, c)) == Spaced(pieces) + [c]
  {
    assert Front(Longer(pieces, c)) == Front(pieces);
  }

  lemma SpacedMore(pieces: seq<string>)
    requires pieces != []
    ensures Spaced(pieces + [""]) == Spaced(pieces) + " "
  {
    assert Front(pieces + [""]) == pieces;
  }

  predicate AllNoSpace(pieces: seq<string>) { forall w :: w in pieces ==> NoSpace(w) }

  lemma NoSpaceMore(pieces: seq<string>, c: char)
    requires pieces != [] && AllNoSpace(pieces)
    ensures AllNoSpace(pieces + [""])
    ensures c != ' ' ==> AllNoSpace(Longer(pieces, c))
  {
    assert NoSpace("") && NoSpace(Last(pieces));
    if c != ' ' { assert NoSpace(Last(pieces) + [c]); }
    hide NoSpace;
  }

  /** The pieces hold no space, and put back together they are the text. */
  lemma {:induction false} SplitIsExact(s: string)
    ensures Spaced(Split(s)) == s && AllNoSpace(Split(s))
    decreases |s|
  {
    if s != "" {
      hide Spaced, Split, AllNoSpace, Longer;
      SplitIsExact(Front(s));
      SplitSnoc(s);
      FrontLast(s);
      SpacedMore(Split(Front(s)));
      SpacedLonger(Split(Front(s)), Last(s));
      NoSpaceMore(Split(Front(s)), Last(s));
    }
  }

  class SessionId {
    var mmap: seq<Msg>
    var ptrsmap: map<string, Session>
    var kki: int

    constructor ()
      ensures View() == EMPTY
    {
      mmap, ptrsmap, kki := [], map[], 0;
    }

    ghost function View(): Log
      reads this
    {
      Log(mmap, ptrsmap, kki)
    }

    /** The map's index operator, which inserts a session where there is none. */
    method At(sid: string) returns (s: Session)
      modifies this`ptrsmap
      ensures s == old(View()).Get(sid) && View() == Exec(old(View()), LookUp(sid))
    {
      if sid !in ptrsmap {
        ptrsmap := ptrsmap[sid := FRESH];
      }
      s := ptrsmap[sid];
      assert ptrsmap == old(ptrsmap)[sid := s];
    }

    method WriteFunction(msg: string)
      requires kki < INT_MAX
      modifies this
      ensures View() == Exec(old(View()), Write(msg))
    {
      if |mmap| > 2000 {
        mmap := mmap[1000..];
      }
      mmap := mmap + [Msg(kki, msg)];
      kki := kki + 1;
    }

    /** Returns what is new to the session, and moves its cursor behind it. */
    method ReadFunction(sid: string) returns (msg: string)
      modifies this
      ensures View() == Exec(old(View()), Read(sid))
      ensures msg == ReplyOf(Delivery(old(View()), sid))
    {
      hide Above, Commas, Joined, Moved;
      ghost var log := View();
      var first := At(sid);
      var id := first.cursor;
      msg := "";
      var num := false;
      var k := 0;
      NothingRead(log, sid);
      while k < |mmap|
        invariant 0 <= k <= |mmap| && mmap == log.msgs && kki == log.next
        invariant var got := Above(mmap[..k], id);
          msg == Commas(got) && num == (got != []) && ptrsmap == Moved(log, sid, got) && sid in ptrsmap
      {
        NextRead(log, sid, mmap, k);
        if mmap[k].id > id {
          msg := msg + mmap[k].text;
          msg := msg + ",";
          num := true;
          ptrsmap := ptrsmap[sid := ptrsmap[sid].(cursor := mmap[k].id)];
        }
        k := k + 1;
      }
      assert mmap[..k] == mmap;
      if num {
        CommasJoined(Delivery(log, sid));
        msg := Front(msg);
      }
      AllRead(log, sid);
      msg := "[" + msg;
      msg := msg + "]";
    }

    method ClearAll()
      modifies this
      ensures View() == Exec(old(View()), Clear)
    {
      mmap := [];
      ptrsmap := map[];
    }

    method ClearSession(sid: string)
      modifies this
      ensures View() == Exec(old(View()), ClearWords(sid))
    {
      var s := At(sid);
      ptrsmap := ptrsmap[sid := s.(words := [])];
    }

    method SetKill(sid: string, flag: bool)
      modifies this
      ensures View() == Exec(old(View()), SetKillFlag(sid, flag))
    {
      var s := At(sid);
      ptrsmap := ptrsmap[sid := s.(kill := flag)];
    }

    method WriteHost(sid: string, hostname: string)
      modifies this
      ensures View() == Exec(old(View()), WriteHostInfo(sid, hostname))
    {
      var s := At(sid);
      ptrsmap := ptrsmap[sid := s.(words := s.words + [hostname])];
    }

    method Find(words: seq<string>, w: string) returns (found: bool)
      ensures found <==> w in words
    {
      found := false;
      var j := 0;
      while j < |words|
        invariant 0 <= j <= |words| && !found && w !in words[..j]
      {
        if words[j] == w {
          return true;
        }
        j := j + 1;
      }
      assert words[..j] == words;
    }

    method AddOne(sid: string, w: string)
      requires w != ""
      modifies this
      ensures View() == WithWord(old(View()), sid, w)
    {
      var s := At(sid);
      var found := Find(s.words, w);
      if !found {
        ptrsmap := ptrsmap[sid := s.(words := s.words + [w])];
      }
    }

    /** Adds the words that a text was split into. */
    method AddAll(sid: string, value: seq<string>)
      modifies this
      ensures View() == Exec(old(View()), PushBack(sid, value))
    {
      hide Pushed, WithWord;
      ghost var log := View();
      NothingPushed(log, sid);
      var i := 0;
      while i < |value|
        invariant 0 <= i <= |value| && View() == Pushed(log, sid, value[..i])
      {
        assert value[..i + 1] == value[..i] + [value[i]];
        if value[i] != "" {
          PushedWord(log, sid, value[..i], value[i]);
          AddOne(sid, value[i]);
        } else {
          PushedEmpty(log, sid, value[..i]);
        }
        i := i + 1;
      }
      assert value[..i] == value;
    }

    /** Splits the text at its spaces and adds the pieces; the empty ones are skipped there. */
    method AddText(sid: string, str: string)
      modifies this
      ensures View() == Exec(old(View()), PushBack(sid, Split(str)))
    {
      hide Exec, Split;
      var value := SplitText(str);
      AddAll(sid, value);
    }

    static method SplitText(str: string) returns (value: seq<string>)
      ensures value == Split(str)
    {
      value := [""];
      var i := 0;
      while i < |str|
        invariant 0 <= i <= |str| && value == Split(str[..i])
      {
        assert Front(str[..i + 1]) == str[..i];
        if str[i] == ' ' {
          value := value + [""];
        } else {
          value := Front(value) + [Last(value) + [str[i]]];
        }
        i := i + 1;
      }
      assert str[..i] == str;
    }
  }
}
