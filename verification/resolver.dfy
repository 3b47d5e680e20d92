/**
 The /delete command of both newer bots: which record a command names, by
 three strategies tried in order (an id at the end of the command, the voice
 message replied to, a summary message replied to), and what deleting it
 does to the store and says to the user.
 */
module Resolver {
  import opened Basics
  import opened Text
  import opened Messages
  import opened Store
  import Templates

  /** What a /delete command refers to. */
  datatype Target = ById(id: nat) | ByFileId(fileId: string) | Unresolvable

  /** The three strategies of `on_delete_command`, first match wins:
      `#?(\d+)$` on the stripped command text, then the file id of a voice
      message replied to, then `^#(\d+)` on the text of the message replied
      to. */
  function Resolve(text: string, reply: ReplyContext): (t: Target)
    ensures TrailingId(Strip(text)).Some? ==> t == ById(TrailingId(Strip(text)).value)
    ensures t.ByFileId? ==>
      && TrailingId(Strip(text)).None?
      && reply.RepliedTo? && reply.voiceFileId == Some(t.fileId)
    ensures t.ById? && TrailingId(Strip(text)).None? ==>
      && reply.RepliedTo? && reply.voiceFileId.None?
      && LeadingIdOf(reply.text) == Some(t.id)
    ensures t.Unresolvable? <==>
      && TrailingId(Strip(text)).None?
      && (reply.RepliedTo? ==> reply.voiceFileId.None? && LeadingIdOf(reply.text).None?)
  {
    match TrailingId(Strip(text))
    case Some(n) => ById(n)
    case None =>
      match reply
      case NoReply => Unresolvable
      case RepliedTo(voice, replyText) =>
        if voice.Some? then ByFileId(voice.value)
        else
          match LeadingIdOf(replyText)
          case Some(n) => ById(n)
          case None => Unresolvable
  }

  /** What the command answers. */
  datatype DeleteAnswer =
    | DeletedId(id: nat)  // MSG_DELETE_SUCCESS with the id
    | DeletedVoice        // the fixed confirmation of a delete by voice message
    | NotFound            // MSG_DELETE_NOT_FOUND
    | CannotResolve       // the guidance listing the three forms
    | Escaped             // the id does not fit an SQLite INTEGER: OverflowError, nothing is sent

  datatype Deletion = Deletion(db: Db, answer: DeleteAnswer)

  /** `on_delete_command`: resolve, then delete by id or by file id. A
      resolved target that is not in the store answers NotFound and does not
      fall through to a later strategy. An id too large to bind escapes the
      handler. */
  function OnDelete(db: Db, text: string, reply: ReplyContext): (r: Deletion)
    requires Valid(db)
    ensures Valid(r.db)
    ensures r.answer.CannotResolve? <==> Resolve(text, reply).Unresolvable?
    ensures r.answer.Escaped? <==> Resolve(text, reply).ById? && Resolve(text, reply).id > MaxInteger
    ensures r.answer.NotFound? || r.answer.CannotResolve? || r.answer.Escaped? ==> r.db == db
    ensures r.answer.DeletedId? ==>
      && Resolve(text, reply) == ById(r.answer.id)
      && r.answer.id in db.rows && r.answer.id !in r.db.rows
      && r.db.rows == db.rows - {r.answer.id}
    ensures r.answer.DeletedVoice? ==>
      && Resolve(text, reply).ByFileId?
      && HasFile(db, Resolve(text, reply).fileId) && !HasFile(r.db, Resolve(text, reply).fileId)
      && |r.db.rows| == |db.rows| - 1
    ensures r.answer.NotFound? ==>
      || (Resolve(text, reply).ById? && Resolve(text, reply).id <= MaxInteger && Resolve(text, reply).id !in db.rows)
      || (Resolve(text, reply).ByFileId? && !HasFile(db, Resolve(text, reply).fileId))
    ensures forall k | k in r.db.rows :: k in db.rows && r.db.rows[k] == db.rows[k]
    ensures r.db.lastId == db.lastId
  {
    match Resolve(text, reply)
    case ById(n) =>
      if n > MaxInteger then Deletion(db, Escaped)
      else
        var c := DeleteById(db, n);
        Deletion(c.db, if c.hit then DeletedId(n) else NotFound)
    case ByFileId(f) =>
      var c := DeleteByFileId(db, f);
      Deletion(c.db, if c.hit then DeletedVoice else NotFound)
    case Unresolvable => Deletion(db, CannotResolve)
  }

  /** The text each answer is sent as. */
  function AnswerText(a: DeleteAnswer): string
    requires !a.Escaped?
  {
    match a
    case DeletedId(n) => Templates.DeleteSuccess(n)
    case DeletedVoice => Templates.DeleteVoiceSuccess
    case NotFound => Templates.DeleteNotFound
    case CannotResolve => Templates.DeleteUnresolvable
  }

  /** An explicit id in the command wins: the message replied to does not
      matter. */
  lemma ExplicitIdIgnoresReply(text: string, n: nat, r1: ReplyContext, r2: ReplyContext)
    requires TrailingId(Strip(text)) == Some(n)
    ensures Resolve(text, r1) == ById(n)
    ensures Resolve(text, r2) == ById(n)
  {
  }

  /** A reply to a voice message resolves to that voice's file id whatever
      the text of the message says. */
  lemma VoiceBeatsReplyText(text: string, fileId: string, t1: Option<string>, t2: Option<string>)
    requires TrailingId(Strip(text)).None?
    ensures Resolve(text, RepliedTo(Some(fileId), t1)) == ByFileId(fileId)
    ensures Resolve(text, RepliedTo(Some(fileId), t2)) == ByFileId(fileId)
  {
  }

  /** Replying `/delete` to the bot's own summary message names the record
      that message was sent for. */
  lemma ReplyToSummaryNamesItsRecord(text: string, id: nat, summary: string)
    requires TrailingId(Strip(text)).None?
    ensures Resolve(text, RepliedTo(None, Some(Templates.SummaryReplyHeader(id, summary)))) == ById(id)
  {
    Templates.HeaderRoundTrip(id, summary);
  }

  /** A command spelled `<prefix><n>` with no whitespace at its ends, such
      as "/delete #42" or "/delete 42", names record n whatever it replies
      to. */
  lemma SpelledIdResolves(prefix: string, n: nat, reply: ReplyContext)
    requires prefix == [] || !IsDigit(prefix[|prefix| - 1])
    requires Trimmed(prefix + NatToString(n))
    ensures Resolve(prefix + NatToString(n), reply) == ById(n)
  {
    TrailingIdOfSpelledId(prefix, n);
    TrimmedIdResolves(prefix + NatToString(n), n, reply);
  }

  lemma TrimmedIdResolves(text: string, n: nat, reply: ReplyContext)
    requires Trimmed(text) && TrailingId(text) == Some(n)
    ensures Resolve(text, reply) == ById(n)
  {
    TrimmedStripsToItself(text);
  }

  /** Such a command deletes record n when it exists and only reports when
      it does not; an n beyond SQLite's INTEGER range escapes. */
  lemma DeleteBySpelledId(db: Db, prefix: string, n: nat, reply: ReplyContext)
    requires Valid(db)
    requires prefix == [] || !IsDigit(prefix[|prefix| - 1])
    requires Trimmed(prefix + NatToString(n))
    ensures n <= MaxInteger && n in db.rows ==> OnDelete(db, prefix + NatToString(n), reply).answer == DeletedId(n)
    ensures n <= MaxInteger && n !in db.rows ==> OnDelete(db, prefix + NatToString(n), reply) == Deletion(db, NotFound)
    ensures n > MaxInteger ==> OnDelete(db, prefix + NatToString(n), reply) == Deletion(db, Escaped)
  {
    SpelledIdResolves(prefix, n, reply);
  }

  /** The three answers a user can tell apart: a success names the id, and
      not-found is not the unresolvable guidance. */
  lemma AnswersDistinguishable(n: nat)
    ensures AnswerText(NotFound) != AnswerText(CannotResolve)
    ensures AnswerText(DeletedId(n)) != AnswerText(NotFound)
  {
    Templates.DeleteTextsDistinct(n);
  }
}
