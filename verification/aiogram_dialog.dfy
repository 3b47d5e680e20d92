/**
 The edit/note dialog of the aiogram bot (bot/telegram_handler.py): a finite
 state machine whose storage maps each (chat, user) to the pending edit of
 the `waiting_for_choice` state; a key with no entry is in no state.

 The entry handler has no state filter, so a valid reply to a summary starts
 or restarts the dialog at any time and overwrites what was pending; the
 three button handlers run only in `waiting_for_choice`. There is no
 timeout.
 */
module AiogramDialog {
  import opened Basics
  import opened Messages
  import opened Store
  import opened Dialog

  type Sessions = map<Key, Pending>

  datatype Outcome = Outcome(sessions: Sessions, db: Db, answer: Answer)

  /** The entry filter `F.reply_to_message & F.text & ~F.text.startswith("/")`. */
  predicate IsEntry(m: Inbound) {
    m.Text? && m.reply.RepliedTo? && m.text != [] && m.text[0] != '/'
  }

  /** The entry handler `on_reply_to_summary_for_edit`. An id too large
      for an SQLite INTEGER makes the lookup raise, before any state is set. */
  function Enter(s: Sessions, db: Db, k: Key, m: Inbound): (r: Outcome)
    requires Valid(db)
    requires IsEntry(m)
    ensures r.db == db
    ensures r.answer == AskChoice <==>
      SummaryIdOf(m.reply).Some? && SummaryIdOf(m.reply).value <= MaxInteger && SummaryIdOf(m.reply).value in db.rows
    ensures r.answer == AskChoice ==> r.sessions == s[k := Pending(SummaryIdOf(m.reply).value, m.text)]
    ensures r.answer != AskChoice ==> r.sessions == s
    ensures SummaryIdOf(m.reply).None? ==> r.answer == NeedSummaryReply
    ensures r.answer == Escaped <==> SummaryIdOf(m.reply).Some? && SummaryIdOf(m.reply).value > MaxInteger
    ensures SummaryIdOf(m.reply).Some? && SummaryIdOf(m.reply).value <= MaxInteger && SummaryIdOf(m.reply).value !in db.rows ==>
      r.answer == RecordNotFound
  {
    match SummaryIdOf(m.reply)
    case None => Outcome(s, db, NeedSummaryReply)
    case Some(id) =>
      if id > MaxInteger then Outcome(s, db, Escaped)
      else if FetchById(db, id).None? then Outcome(s, db, RecordNotFound)
      else Outcome(s[k := Pending(id, m.text)], db, AskChoice)
  }

  /** One update. Commands, voice messages and other content go to other
      handlers and leave the dialog alone; so does a button press without a
      waiting state (no handler matches it). */
  function Step(s: Sessions, db: Db, e: Event): (r: Outcome)
    requires Valid(db)
    ensures Valid(r.db)
    ensures forall k | k != e.key :: (k in r.sessions <==> k in s) && (k in s ==> r.sessions[k] == s[k])
    ensures e.Message? && !IsEntry(e.msg) ==> r == Outcome(s, db, Elsewhere)
    ensures e.Message? && IsEntry(e.msg) ==> r == Enter(s, db, e.key, e.msg)
    ensures e.Press? && e.key !in s ==> r == Outcome(s, db, Elsewhere)
    ensures e.Press? && e.key in s ==>
      && r.sessions == s - {e.key}
      && Applied(r.db, r.answer) == ApplyChoice(db, Some(s[e.key]), e.choice)
  {
    match e
    case Message(k, _, m) =>
      if !IsEntry(m) then Outcome(s, db, Elsewhere)
      else
        Enter(s, db, k, m)
    case Press(k, _, choice) =>
      if k !in s then Outcome(s, db, Elsewhere)
      else
        var a := ApplyChoice(db, Some(s[k]), choice);
        Outcome(s - {k}, a.db, a.answer)
  }

  /** Runs a sequence of updates from the given storage and store; the
      answer is the one sent for the last update (none for no update). */
  function Run(s: Sessions, db: Db, events: seq<Event>): (r: Outcome)
    requires Valid(db)
    ensures Valid(r.db)
    ensures events == [] ==> r == Outcome(s, db, Elsewhere)
    ensures |events| == 1 ==> r == Step(s, db, events[0])
    decreases |events|
  {
    if events == [] then Outcome(s, db, Elsewhere)
    else
      var o := Step(s, db, events[0]);
      if |events| == 1 then o else Run(o.sessions, o.db, events[1..])
  }

  /** Running two batches of updates one after the other is running them
      together: the storage and store carry over, and the answer is the one
      of the last update. */
  lemma {:induction false} RunConcat(s: Sessions, db: Db, a: seq<Event>, b: seq<Event>)
    requires Valid(db)
    ensures var o := Run(s, db, a);
      && Run(o.sessions, o.db, b).sessions == Run(s, db, a + b).sessions
      && Run(o.sessions, o.db, b).db == Run(s, db, a + b).db
      && (b != [] ==> Run(o.sessions, o.db, b) == Run(s, db, a + b))
    decreases |a|
  {
    if a == [] {
      assert a + b == b;
    } else if |a| == 1 {
      assert (a + b)[0] == a[0];
      if b != [] {
        assert (a + b)[1..] == b;
      }
    } else {
      var o := Step(s, db, a[0]);
      assert (a + b)[0] == a[0];
      assert (a + b)[1..] == a[1..] + b;
      RunConcat(o.sessions, o.db, a[1..], b);
    }
  }

  /** A second valid entry replaces the pending edit of the first: only the
      latest reply text is pending. */
  lemma SecondEntryOverwrites(s: Sessions, db: Db, k: Key, t1: int, t2: int, m1: Inbound, m2: Inbound)
    requires Valid(db)
    requires IsEntry(m1) && IsEntry(m2)
    requires SummaryIdOf(m2.reply).Some? && SummaryIdOf(m2.reply).value <= MaxInteger && SummaryIdOf(m2.reply).value in db.rows
    ensures var o1 := Step(s, db, Message(k, t1, m1));
      var o2 := Step(o1.sessions, o1.db, Message(k, t2, m2));
      o2.sessions[k] == Pending(SummaryIdOf(m2.reply).value, m2.text)
  {
  }

  /** A failed entry (a reply to something that is not a summary, to a
      summary of a deleted record, or one whose id makes the lookup raise)
      neither starts nor disturbs a dialog. */
  lemma FailedEntryKeepsSession(s: Sessions, db: Db, k: Key, t: int, m: Inbound)
    requires Valid(db)
    requires IsEntry(m)
    requires SummaryIdOf(m.reply).None? || SummaryIdOf(m.reply).value !in db.rows || SummaryIdOf(m.reply).value > MaxInteger
    ensures Step(s, db, Message(k, t, m)).sessions == s
    ensures Step(s, db, Message(k, t, m)).db == db
  {
  }

  /** Reply to a summary, then press "edit": the record's summary becomes the
      reply text and nothing else in the store changes. */
  lemma EntryThenEdit(s: Sessions, db: Db, k: Key, t1: int, t2: int, text: string, reply: ReplyContext)
    requires Valid(db)
    requires IsEntry(Text(text, reply))
    requires SummaryIdOf(reply).Some? && SummaryIdOf(reply).value <= MaxInteger && SummaryIdOf(reply).value in db.rows
    requires SummaryIdOf(reply).value != 0
    ensures var id := SummaryIdOf(reply).value;
      var o := Run(s, db, [Message(k, t1, Text(text, reply)), Press(k, t2, EditSummary)]);
      && o.db.rows == db.rows[id := db.rows[id].(summarized := text)]
      && k !in o.sessions
      && o.answer == SummaryUpdated
  {
    var id := SummaryIdOf(reply).value;
    var o1 := Step(s, db, Message(k, t1, Text(text, reply)));
    assert o1.sessions[k] == Pending(id, text);
    var o2 := Step(o1.sessions, o1.db, Press(k, t2, EditSummary));
    var events := [Message(k, t1, Text(text, reply)), Press(k, t2, EditSummary)];
    assert events[1..] == [Press(k, t2, EditSummary)];
    assert events[1..][1..] == [];
    assert Run(s, db, events) == Run(o1.sessions, o1.db, events[1..]);
    assert Run(o1.sessions, o1.db, events[1..]) == o2;
    assert o2.db == SetColumn(db, id, Summarized, text).db;
  }

  /** A choice is honoured once: after any button, a second press of the same
      user in the same chat is not handled and changes nothing. */
  lemma ChoiceHonouredOnce(s: Sessions, db: Db, k: Key, t1: int, t2: int, c1: Choice, c2: Choice)
    requires Valid(db)
    ensures var o1 := Step(s, db, Press(k, t1, c1));
      Step(o1.sessions, o1.db, Press(k, t2, c2)) == Outcome(o1.sessions, o1.db, Elsewhere)
  {
  }

  /** The pending edits of distinct (chat, user) pairs never interfere: an
      update for one key leaves every other key's pending edit as it was. */
  lemma KeysIsolated(s: Sessions, db: Db, e: Event, k: Key)
    requires Valid(db)
    requires k != e.key
    ensures k in Step(s, db, e).sessions <==> k in s
    ensures k in s ==> Step(s, db, e).sessions[k] == s[k]
  {
  }
}
