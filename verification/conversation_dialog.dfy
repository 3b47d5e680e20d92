/**
 The edit/note dialog of the python-telegram-bot version
 (voice_memo_assistant/bot/telegram_handler.py): a `ConversationHandler`
 keyed per (chat, user) with one state, AWAITING_CHOICE, a 300-second
 conversation timeout, and a catch-all fallback; the pending edit lives in
 `context.user_data`.

 A conversation in AWAITING_CHOICE is represented by its deadline: it is
 live at time `now` iff `now < deadline`. The timeout is applied lazily, so
 an expired entry simply stops being live.

 Where the pending edit is stored is a parameter (`DataScope`):
 `context.user_data` is one dictionary per USER, shared by every chat that
 user talks in (PerUser, as the code is written), while the conversation is
 per (chat, user). PerChatUser is the storage the dialog evidently intends.
 */
module ConversationDialog {
  import opened Basics
  import opened Messages
  import opened Store
  import opened Dialog
  import Templates

  /** `conversation_timeout=300`. */
  const Timeout := 300

  datatype DataScope = PerUser | PerChatUser

  /** Where the pending edit of a conversation is kept. */
  datatype Slot = UserSlot(user: int) | ChatUserSlot(chat: int, user: int)

  function SlotOf(scope: DataScope, k: Key): (s: Slot)
    ensures scope.PerUser? ==> s == UserSlot(k.user)
    ensures scope.PerChatUser? ==> s == ChatUserSlot(k.chat, k.user)
  {
    match scope
    case PerUser => UserSlot(k.user)
    case PerChatUser => ChatUserSlot(k.chat, k.user)
  }

  /** Deadlines of conversations in AWAITING_CHOICE, and the stored pending
      edits (`record_id`, `new_text`). */
  datatype State = State(deadlines: map<Key, int>, data: map<Slot, Pending>)

  const Initial := State(map[], map[])

  /** The conversation of k is in AWAITING_CHOICE at time now. */
  predicate Awaiting(st: State, k: Key, now: int) {
    k in st.deadlines && now < st.deadlines[k]
  }

  /** What `context.user_data.get(...)` finds for k. */
  function PendingOf(st: State, scope: DataScope, k: Key): Option<Pending> {
    if SlotOf(scope, k) in st.data then Some(st.data[SlotOf(scope, k)]) else None
  }

  /** Handlers registered before the conversation take these first: the
      /start, /help, /sum and /delete command handlers and `on_voice`. */
  predicate TakenEarlier(m: Inbound) {
    (m.Command? && m.known) || m.Voice?
  }

  /** The entry point's filter `filters.REPLY & filters.TEXT & ~filters.COMMAND`. */
  predicate IsEntry(m: Inbound) {
    m.Text? && m.reply.RepliedTo? && m.text != []
  }

  /** Returning END: the conversation of k ends and `user_data.clear()`
      empties its slot. */
  function End(st: State, scope: DataScope, k: Key): (r: State)
    ensures k !in r.deadlines && SlotOf(scope, k) !in r.data
    ensures forall j | j in st.deadlines && j != k :: j in r.deadlines && r.deadlines[j] == st.deadlines[j]
  {
    State(st.deadlines - {k}, st.data - {SlotOf(scope, k)})
  }

  datatype Outcome = Outcome(state: State, db: Db, answer: Answer)

  /** `on_reply_to_summary_for_edit` on a conversation that is not live. An
      id too large for an SQLite INTEGER makes the lookup raise; the
      conversation then stays where it was. */
  function Enter(st: State, db: Db, scope: DataScope, k: Key, now: int, m: Inbound): (r: Outcome)
    requires Valid(db) && IsEntry(m)
    ensures r.db == db
    ensures r.answer == AskChoice <==>
      SummaryIdOf(m.reply).Some? && SummaryIdOf(m.reply).value <= MaxInteger && SummaryIdOf(m.reply).value in db.rows
    ensures r.answer == AskChoice ==>
      && r.state.deadlines == st.deadlines[k := now + Timeout]
      && r.state.data == st.data[SlotOf(scope, k) := Pending(SummaryIdOf(m.reply).value, m.text)]
    ensures r.answer != AskChoice ==> r.state == st
    ensures SummaryIdOf(m.reply).None? ==> r.answer == NeedSummaryReply
    ensures r.answer == Escaped <==> SummaryIdOf(m.reply).Some? && SummaryIdOf(m.reply).value > MaxInteger
    ensures SummaryIdOf(m.reply).Some? && SummaryIdOf(m.reply).value <= MaxInteger && SummaryIdOf(m.reply).value !in db.rows ==>
      r.answer == RecordNotFound
  {
    match SummaryIdOf(m.reply)
    case None => Outcome(st, db, NeedSummaryReply)
    case Some(id) =>
      if id > MaxInteger then Outcome(st, db, Escaped)
      else if FetchById(db, id).None? then Outcome(st, db, RecordNotFound)
      else Outcome(State(st.deadlines[k := now + Timeout], st.data[SlotOf(scope, k) := Pending(id, m.text)]), db, AskChoice)
  }

  /** One update for the conversation handler. In AWAITING_CHOICE only the
      three buttons are state handlers, and the fallback `filters.ALL`
      takes every message that reaches the conversation, a second reply to
      a summary included. Outside it only the entry point is consulted. */
  function Step(scope: DataScope, st: State, db: Db, e: Event): (r: Outcome)
    requires Valid(db)
    ensures Valid(r.db)
    ensures r.db != db ==> e.Press? && Awaiting(st, e.key, e.at)
    ensures e.Message? && TakenEarlier(e.msg) ==> r == Outcome(st, db, Elsewhere)
    ensures e.Message? && !TakenEarlier(e.msg) && Awaiting(st, e.key, e.at) ==>
      r == Outcome(End(st, scope, e.key), db, EditAborted)
    ensures e.Message? && !TakenEarlier(e.msg) && !Awaiting(st, e.key, e.at) && IsEntry(e.msg) ==>
      r == Enter(st, db, scope, e.key, e.at, e.msg)
    ensures e.Message? && !TakenEarlier(e.msg) && !Awaiting(st, e.key, e.at) && !IsEntry(e.msg) ==>
      r == Outcome(st, db, Elsewhere)
    ensures e.Press? && !Awaiting(st, e.key, e.at) ==> r == Outcome(st, db, Elsewhere)
    ensures e.Press? && Awaiting(st, e.key, e.at) ==>
      && r.state == End(st, scope, e.key)
      && Applied(r.db, r.answer) == ApplyChoice(db, PendingOf(st, scope, e.key), e.choice)
    ensures forall j | j in st.deadlines && j != e.key :: j in r.state.deadlines && r.state.deadlines[j] == st.deadlines[j]
  {
    match e
    case Message(k, now, m) =>
      if TakenEarlier(m) then Outcome(st, db, Elsewhere)
      else if Awaiting(st, k, now) then Outcome(End(st, scope, k), db, EditAborted)
      else if IsEntry(m) then Enter(st, db, scope, k, now, m)
      else Outcome(st, db, Elsewhere)
    case Press(k, now, choice) =>
      if !Awaiting(st, k, now) then Outcome(st, db, Elsewhere)
      else
        var a := ApplyChoice(db, PendingOf(st, scope, k), choice);
        Outcome(End(st, scope, k), a.db, a.answer)
  }

  /** Every conversation that was ever started still has its pending edit
      stored, unless it ended. */
  ghost predicate Paired(st: State, scope: DataScope) {
    forall k | k in st.deadlines :: SlotOf(scope, k) in st.data
  }

  /** With per-(chat, user) storage every step keeps each conversation paired
      with its own pending edit. */
  lemma StepKeepsPaired(st: State, db: Db, e: Event)
    requires Valid(db)
    requires Paired(st, PerChatUser)
    ensures Paired(Step(PerChatUser, st, db, e).state, PerChatUser)
  {
    var r := Step(PerChatUser, st, db, e);
    forall k | k in r.state.deadlines
      ensures SlotOf(PerChatUser, k) in r.state.data
    {
      if k != e.key {
        assert k in st.deadlines;
      }
    }
  }

  /** So, with per-(chat, user) storage, a button pressed in a live
      conversation always finds the pending edit. */
  lemma LivePressFindsPending(st: State, k: Key, now: int)
    requires Paired(st, PerChatUser) && Awaiting(st, k, now)
    ensures PendingOf(st, PerChatUser, k).Some?
  {
  }

  /** The fallback: any message reaching a live conversation, including a
      second reply to a summary, ends it without touching the store and
      without starting a new one. */
  lemma FallbackCancels(scope: DataScope, st: State, db: Db, k: Key, now: int, m: Inbound, later: int)
    requires Valid(db)
    requires Awaiting(st, k, now) && !TakenEarlier(m)
    ensures var r := Step(scope, st, db, Message(k, now, m));
      && r.answer == EditAborted
      && r.db == db
      && !Awaiting(r.state, k, later)
      && PendingOf(r.state, scope, k).None?
  {
  }

  /** After the timeout a button does nothing: a conversation entered at
      `start` and left alone is gone at `start + 300`. */
  lemma TimeoutMakesPressInert(scope: DataScope, st: State, db: Db, k: Key, start: int, m: Inbound, at: int, c: Choice)
    requires Valid(db)
    requires !Awaiting(st, k, start) && IsEntry(m) && !TakenEarlier(m)
    requires at >= start + Timeout
    ensures var o1 := Step(scope, st, db, Message(k, start, m));
      var o2 := Step(scope, o1.state, o1.db, Press(k, at, c));
      o2 == Outcome(o1.state, db, Elsewhere)
  {
  }

  /** Reply to a summary, then press "edit" within the timeout: with
      per-(chat, user) storage the record's summary becomes the reply text,
      and the conversation is over. */
  lemma EntryThenEditInTime(st: State, db: Db, k: Key, start: int, at: int, text: string, reply: ReplyContext)
    requires Valid(db)
    requires !Awaiting(st, k, start) && start <= at < start + Timeout
    requires IsEntry(Text(text, reply))
    requires SummaryIdOf(reply).Some? && SummaryIdOf(reply).value in db.rows
    requires 0 < SummaryIdOf(reply).value <= MaxInteger
    ensures var id := SummaryIdOf(reply).value;
      var o1 := Step(PerChatUser, st, db, Message(k, start, Text(text, reply)));
      var o2 := Step(PerChatUser, o1.state, o1.db, Press(k, at, EditSummary));
      && o2.answer == SummaryUpdated
      && o2.db == SetColumn(db, id, Summarized, text).db
      && !Awaiting(o2.state, k, at)
  {
    var o1 := Step(PerChatUser, st, db, Message(k, start, Text(text, reply)));
    assert PendingOf(o1.state, PerChatUser, k) == Some(Pending(SummaryIdOf(reply).value, text));
  }

  /** With per-(chat, user) storage, conversations of the same user in two
      chats do not see each other's pending edits. */
  lemma ChatsIsolated(st: State, db: Db, e: Event, k: Key)
    requires Valid(db)
    requires k != e.key
    ensures PendingOf(Step(PerChatUser, st, db, e).state, PerChatUser, k) == PendingOf(st, PerChatUser, k)
  {
  }

  /** The reply a user sends to the bot's own summary message of a record. */
  function ReplyToSummary(id: nat, summary: string, text: string): Inbound {
    Text(text, RepliedTo(None, Some(Templates.SummaryReplyHeader(id, summary))))
  }

  /** The shared `user_data`, shown on one user in two chats A and B: the
      user starts an edit of record 1 with text x in A, then of record 2 with
      text y in B, then presses "edit" in A. As written, record 2 gets y (the
      edit started in B) and record 1 is unchanged; the later "edit" in B
      finds no pending data and answers the generic error. */
  lemma SharedUserDataCrossesChats(db: Db, user: int, s1: string, s2: string, x: string, y: string)
    requires Valid(db) && 1 in db.rows && 2 in db.rows
    requires x != [] && y != []
    ensures var a := Key(1, user);
      var b := Key(2, user);
      var o1 := Step(PerUser, Initial, db, Message(a, 0, ReplyToSummary(1, s1, x)));
      var o2 := Step(PerUser, o1.state, o1.db, Message(b, 1, ReplyToSummary(2, s2, y)));
      var o3 := Step(PerUser, o2.state, o2.db, Press(a, 2, EditSummary));
      var o4 := Step(PerUser, o3.state, o3.db, Press(b, 3, EditSummary));
      && o3.answer == SummaryUpdated
      && o3.db.rows[2].summarized == y
      && o3.db.rows[1] == db.rows[1]
      && o4.answer == GenericError
  {
    Templates.HeaderRoundTrip(1, s1);
    Templates.HeaderRoundTrip(2, s2);
    var a := Key(1, user);
    var b := Key(2, user);
    var o1 := Step(PerUser, Initial, db, Message(a, 0, ReplyToSummary(1, s1, x)));
    assert o1.db == db && Awaiting(o1.state, a, 2);
    var o2 := Step(PerUser, o1.state, o1.db, Message(b, 1, ReplyToSummary(2, s2, y)));
    assert o2.db == db && Awaiting(o2.state, b, 3) && Awaiting(o2.state, a, 2);
    assert PendingOf(o2.state, PerUser, a) == Some(Pending(2, y));
    var o3 := Step(PerUser, o2.state, o2.db, Press(a, 2, EditSummary));
    assert o3.db == SetColumn(db, 2, Summarized, y).db;
    assert Awaiting(o3.state, b, 3) && PendingOf(o3.state, PerUser, b).None?;
  }

  /** The same four updates with per-(chat, user) storage: each chat edits
      the record it replied to, with its own text. */
  lemma SeparateUserDataKeepsChatsApart(db: Db, user: int, s1: string, s2: string, x: string, y: string)
    requires Valid(db) && 1 in db.rows && 2 in db.rows
    requires x != [] && y != []
    ensures var a := Key(1, user);
      var b := Key(2, user);
      var o1 := Step(PerChatUser, Initial, db, Message(a, 0, ReplyToSummary(1, s1, x)));
      var o2 := Step(PerChatUser, o1.state, o1.db, Message(b, 1, ReplyToSummary(2, s2, y)));
      var o3 := Step(PerChatUser, o2.state, o2.db, Press(a, 2, EditSummary));
      var o4 := Step(PerChatUser, o3.state, o3.db, Press(b, 3, EditSummary));
      && o3.answer == SummaryUpdated && o4.answer == SummaryUpdated
      && o4.db.rows[1].summarized == x
      && o4.db.rows[2].summarized == y
  {
    Templates.HeaderRoundTrip(1, s1);
    Templates.HeaderRoundTrip(2, s2);
    var a := Key(1, user);
    var b := Key(2, user);
    var o1 := Step(PerChatUser, Initial, db, Message(a, 0, ReplyToSummary(1, s1, x)));
    assert o1.db == db && PendingOf(o1.state, PerChatUser, a) == Some(Pending(1, x)) && Awaiting(o1.state, a, 2);
    var o2 := Step(PerChatUser, o1.state, o1.db, Message(b, 1, ReplyToSummary(2, s2, y)));
    assert o2.db == db && PendingOf(o2.state, PerChatUser, b) == Some(Pending(2, y)) && Awaiting(o2.state, b, 3);
    assert PendingOf(o2.state, PerChatUser, a) == Some(Pending(1, x)) && Awaiting(o2.state, a, 2);
    var o3 := Step(PerChatUser, o2.state, o2.db, Press(a, 2, EditSummary));
    assert o3.answer == SummaryUpdated && o3.db == SetColumn(db, 1, Summarized, x).db;
    assert Valid(o3.db) && o3.db.rows[1].summarized == x && 2 in o3.db.rows;
    assert PendingOf(o3.state, PerChatUser, b) == Some(Pending(2, y)) && Awaiting(o3.state, b, 3);
    var o4 := Step(PerChatUser, o3.state, o3.db, Press(b, 3, EditSummary));
    assert o4.answer == SummaryUpdated && o4.db == SetColumn(o3.db, 2, Summarized, y).db;
  }
}
