/**
 What the edit/note dialog of both newer bots sees and says: the per-chat,
 per-user key, the incoming events with an explicit time, the three buttons
 and the replies. The two dialog machines (`AiogramDialog`,
 `ConversationDialog`) are written over these.
 */
module Dialog {
  import opened Basics
  import opened Messages
  import opened Store

  /** A conversation is kept per (chat, user). */
  datatype Key = Key(chat: int, user: int)

  /** What a user sends, as the handler filters classify it. */
  datatype Inbound =
    | Command(known: bool)                    // a bot command; known = /start, /help, /sum or /delete
    | Voice                                   // a voice message
    | Text(text: string, reply: ReplyContext) // any other text message
    | Other                                   // any other content (photo, sticker, ...)

  /** The inline buttons of MSG_EDIT_OR_ADD_NOTE_PROMPT (callback data "edit",
      "note", "cancel"). */
  datatype Choice = EditSummary | AddNote | Cancel

  /** An update at a point in time (seconds). */
  datatype Event =
    | Message(key: Key, at: int, msg: Inbound)
    | Press(key: Key, at: int, choice: Choice)

  /** What the dialog answers. */
  datatype Answer =
    | NeedSummaryReply  // "reply to a summary message (which starts with #ID)"
    | RecordNotFound    // MSG_DELETE_NOT_FOUND
    | AskChoice         // MSG_EDIT_OR_ADD_NOTE_PROMPT with the three buttons
    | SummaryUpdated    // MSG_SUMMARY_UPDATED
    | NoteAdded         // MSG_NOTE_ADDED
    | GenericError      // "an error occurred, please try again"
    | Cancelled         // "operation cancelled" (the cancel button)
    | EditAborted       // the conversation fallback's "edit cancelled" reply
    | Elsewhere         // the dialog does not take the update
    | Escaped           // an exception leaves the handler; nothing is sent

  /** The pending edit: the record named by the summary replied to and the
      text of the reply. */
  datatype Pending = Pending(recordId: nat, newText: string)

  /** The id a reply-to-summary names, when the replied message has a text
      that starts with '#' and digits. */
  function SummaryIdOf(reply: ReplyContext): (r: Option<nat>)
    ensures reply.NoReply? ==> r.None?
    ensures reply.RepliedTo? ==> r == LeadingIdOf(reply.text)
  {
    match reply
    case NoReply => None
    case RepliedTo(_, text) => LeadingIdOf(text)
  }

  /** The action of a pressed button on the store, given what is pending:
      `record_id and new_text` must both be truthy (0 and "" are not), then
      the UPDATE of the chosen column reports whether the row existed. */
  datatype Applied = Applied(db: Db, answer: Answer)

  function ApplyChoice(db: Db, pending: Option<Pending>, choice: Choice): (r: Applied)
    requires Valid(db)
    ensures Valid(r.db)
    ensures r.answer in {SummaryUpdated, NoteAdded, RecordNotFound, GenericError, Cancelled}
    ensures r.answer.Cancelled? <==> choice.Cancel?
    ensures r.answer.SummaryUpdated? || r.answer.NoteAdded? <==>
      && !choice.Cancel?
      && pending.Some? && pending.value.recordId != 0 && pending.value.newText != []
      && pending.value.recordId in db.rows
    ensures r.answer.GenericError? <==>
      && !choice.Cancel?
      && !(pending.Some? && pending.value.recordId != 0 && pending.value.newText != [])
    ensures r.answer.RecordNotFound? <==>
      && !choice.Cancel?
      && pending.Some? && pending.value.recordId != 0 && pending.value.newText != []
      && pending.value.recordId !in db.rows
    ensures r.answer.SummaryUpdated? ==>
      && choice.EditSummary?
      && r.db == SetColumn(db, pending.value.recordId, Summarized, pending.value.newText).db
    ensures r.answer.NoteAdded? ==>
      && choice.AddNote?
      && r.db == SetColumn(db, pending.value.recordId, Note, pending.value.newText).db
    ensures !(r.answer.SummaryUpdated? || r.answer.NoteAdded?) ==> r.db == db
  {
    match choice
    case Cancel => Applied(db, Cancelled)
    case _ =>
      if pending.Some? && pending.value.recordId != 0 && pending.value.newText != [] then
        var column := if choice.EditSummary? then Summarized else Note;
        var c := SetColumn(db, pending.value.recordId, column, pending.value.newText);
        Applied(c.db, if !c.hit then RecordNotFound else if choice.EditSummary? then SummaryUpdated else NoteAdded)
      else Applied(db, GenericError)
  }
}
