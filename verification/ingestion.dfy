/**
 The voice pipeline `on_voice`: download the voice file, transcribe it,
 summarise the transcript, save the row, and answer with the summary. In
 the newer bots the last step raises, so they are modelled twice: as
 written (`OnVoice`) and as evidently intended (`OnVoiceIntended`).

 The collaborators are inputs: whether the download went through, what the
 recogniser returned (None when it raised), and the backend outcomes the
 summariser would see. The clock reading is the `sentAt` field.
 */
module Ingestion {
  import opened Basics
  import opened Text
  import opened Messages
  import opened Store
  import opened Summarizer
  import Templates
  import Resolver
  import Dialog
  import AiogramDialog

  /** One voice message and what its collaborators deliver. */
  datatype Voice = Voice(
    fileId: string,
    sentAt: string,
    userId: int,
    username: Option<string>,
    downloaded: bool,
    transcript: Option<string>)

  /** What the handler answers. */
  datatype Reply =
    | Unrecognized          // "could not recognise the text, please try again"
    | Failure               // the catch-all "an error occurred while processing"
    | Summary(text: string) // the reply carrying the summary
    | Escaped               // the exception leaves the handler; nothing is sent

  /** The store afterwards, the answer and the number of backend calls. */
  datatype Ingested = Ingested(db: Db, reply: Reply, calls: nat)

  /** A transcript shorter than five characters is not summarised. */
  const MinTranscript := 5

  function Row(v: Voice, text: string, summary: string): Incoming {
    Incoming(v.fileId, text, summary, v.sentAt, v.userId, v.username)
  }

  /** The facts of `save_message` the handlers rely on: the row of the file
      id is the one reported (the earlier row when there was one), it is the
      only row added, it holds the given values, and rows of other files are
      untouched. */
  function Stored(db: Db, m: Incoming, policy: ConflictPolicy): (s: Saved)
    requires Valid(db)
    ensures Valid(s.db)
    ensures HasFile(s.db, m.fileId) && Owner(s.db, m.fileId) == Some(s.id)
    ensures s.db.rows.Keys == db.rows.Keys + {s.id}
    ensures HasFile(db, m.fileId) ==> Owner(db, m.fileId) == Some(s.id)
    ensures s.db.rows[s.id].text == m.text && s.db.rows[s.id].summarized == m.summary
    ensures s.db.rows[s.id].sentAt == m.sentAt
    ensures !HasFile(db, m.fileId) ==>
      s.db.rows[s.id] == Record(m.fileId, m.text, m.summary, None, m.sentAt, m.userId, m.username)
    ensures HasFile(db, m.fileId) ==> s.db.rows[s.id] == Updated(db.rows[s.id], m, policy)
    ensures forall k | k in db.rows && db.rows[k].fileId != m.fileId :: k in s.db.rows && s.db.rows[k] == db.rows[k]
  {
    OwnerAfterSave(db, m, policy);
    Save(db, m, policy)
  }

  /** `on_voice` of both newer bots as written. A failed download or
      recognition ends in the generic failure and a short transcript in the
      recognition failure, both with nothing saved and no backend call.
      Otherwise the summary is saved, but step 5 edits the progress message
      with a `reply_to_message_id` keyword that the edit call does not take:
      the call raises, and the handler's `except` branch answers the generic
      failure over the saved row. */
  function OnVoice(db: Db, v: Voice, cfg: Config, backend: seq<Outcome>): (r: Ingested)
    requires Valid(db)
    requires |backend| >= Tries(cfg)
    ensures Valid(r.db)
    ensures r.reply.Unrecognized? <==>
      v.downloaded && v.transcript.Some? && |v.transcript.value| < MinTranscript
    ensures r.reply.Failure? <==>
      !(v.downloaded && v.transcript.Some? && |v.transcript.value| < MinTranscript)
    ensures !Summarized(v) ==> r.db == db && r.calls == 0
    ensures Summarized(v) ==>
      && HasFile(r.db, v.fileId)
      && r.db.rows[Owner(r.db, v.fileId).value].text == v.transcript.value
      && 1 <= r.calls <= Tries(cfg)
  {
    var c := OnVoiceIntended(db, v, cfg, backend);
    if c.reply.Summary? then Ingested(c.db, Failure, c.calls) else c
  }

  /** Whether the newer bots get past both guards to the summariser. */
  predicate Summarized(v: Voice) {
    v.downloaded && v.transcript.Some? && |v.transcript.value| >= MinTranscript
  }

  /** `on_voice` of both newer bots as evidently intended: the same guards,
      and a transcript that passes them is summarised, saved (overwriting an
      earlier row of the same file) and sent under a header that starts
      with the row's id. */
  function OnVoiceIntended(db: Db, v: Voice, cfg: Config, backend: seq<Outcome>): (r: Ingested)
    requires Valid(db)
    requires |backend| >= Tries(cfg)
    ensures Valid(r.db)
    ensures r.reply.Failure? <==> !v.downloaded || v.transcript.None?
    ensures r.reply.Unrecognized? <==>
      v.downloaded && v.transcript.Some? && |v.transcript.value| < MinTranscript
    ensures r.reply.Summary? <==> Summarized(v)
    ensures !r.reply.Summary? ==> r.db == db && r.calls == 0
    ensures r.reply.Summary? ==> r == SummarizeAndSave(db, v, v.transcript.value, cfg, backend)
  {
    if !v.downloaded || v.transcript.None? then Ingested(db, Failure, 0)
    else if |v.transcript.value| < MinTranscript then Ingested(db, Unrecognized, 0)
    else SummarizeAndSave(db, v, v.transcript.value, cfg, backend)
  }

  /** Steps 3 to 5 of the newer `on_voice` as intended: summarise, save
      (overwriting an earlier row of the same file) and answer with the
      header of the saved row's id. */
  function SummarizeAndSave(db: Db, v: Voice, text: string, cfg: Config, backend: seq<Outcome>): (r: Ingested)
    requires Valid(db)
    requires |backend| >= Tries(cfg)
    ensures 1 <= r.calls <= Tries(cfg) && r.calls <= |backend|
    ensures Valid(r.db)
    ensures r.reply.Summary?
    ensures HasFile(r.db, v.fileId)
    ensures var id := Owner(r.db, v.fileId).value;
      && r.db.rows.Keys == db.rows.Keys + {id}
      && (HasFile(db, v.fileId) ==> Owner(db, v.fileId) == Some(id))
      && r.db.rows[id].text == text
      && r.db.rows[id].summarized == Guarded(backend[r.calls - 1]).text
      && r.db.rows[id].sentAt == v.sentAt
      && r.db.rows[id].userId == v.userId && r.db.rows[id].username == v.username
      && r.db.rows[id].note == (if HasFile(db, v.fileId) then db.rows[id].note else None)
      && r.reply.text == Templates.SummaryReplyHeader(id, r.db.rows[id].summarized)
    ensures forall k | k in db.rows && db.rows[k].fileId != v.fileId :: k in r.db.rows && r.db.rows[k] == db.rows[k]
    ensures r.calls == Summarize(text, cfg, backend).calls
  {
    var run := Summarize(text, cfg, backend);
    var s := Stored(db, Row(v, text, run.summary.value), OverwriteAll);
    assert s.db.rows[s.id].summarized == Guarded(backend[run.calls - 1]).text;
    Ingested(s.db, Summary(Templates.SummaryReplyHeader(s.id, run.summary.value)), run.calls)
  }

  /** Every processed voice note advances the row-id counter by one, whether
      its row is new or overwritten: the next new row skips the id. */
  lemma SummarizeAndSaveAdvancesCounter(db: Db, v: Voice, text: string, cfg: Config, backend: seq<Outcome>)
    requires Valid(db)
    requires |backend| >= Tries(cfg)
    ensures SummarizeAndSave(db, v, text, cfg, backend).db.lastId == db.lastId + 1
  {
  }

  /** As written, a voice note that passes the guards is saved, yet the user
      is told that processing failed; the intended handler sends the header
      of the very row that was saved. */
  lemma SavedButFailureAnswered(db: Db, v: Voice, cfg: Config, backend: seq<Outcome>)
    requires Valid(db)
    requires |backend| >= Tries(cfg)
    requires Summarized(v)
    ensures var r := OnVoice(db, v, cfg, backend);
      var i := OnVoiceIntended(db, v, cfg, backend);
      && r.reply == Failure && HasFile(r.db, v.fileId)
      && r.db == i.db && r.calls == i.calls
      && i.reply == Summary(Templates.SummaryReplyHeader(Owner(i.db, v.fileId).value,
                                                         i.db.rows[Owner(i.db, v.fileId).value].summarized))
  {
  }

  /** Outside that path the two handlers agree: the failure and
      recognition-failure answers are the same, and nothing is saved. */
  lemma GuardsAgree(db: Db, v: Voice, cfg: Config, backend: seq<Outcome>)
    requires Valid(db)
    requires |backend| >= Tries(cfg)
    requires !Summarized(v)
    ensures OnVoice(db, v, cfg, backend) == OnVoiceIntended(db, v, cfg, backend)
    ensures OnVoice(db, v, cfg, backend).db == db
  {
  }

  /** `on_voice` of the single-file bot: no short-transcript guard and no
      exception handling, so a failed download or recognition escapes
      before anything else happens. */
  function OnVoiceLegacy(db: Db, v: Voice, cfg: Config, backend: seq<Outcome>): (r: Ingested)
    requires Valid(db)
    requires |backend| >= Tries(cfg)
    ensures Valid(r.db)
    ensures !v.downloaded || v.transcript.None? ==> r == Ingested(db, Escaped, 0)
    ensures v.downloaded && v.transcript.Some? ==> r == SummarizeAndSaveLegacy(db, v, v.transcript.value, cfg, backend)
  {
    if !v.downloaded || v.transcript.None? then Ingested(db, Escaped, 0)
    else SummarizeAndSaveLegacy(db, v, v.transcript.value, cfg, backend)
  }

  /** Steps 2 to 4 of the single-file `on_voice`, whatever the transcript's
      length: a failed backend call escapes before the save; otherwise the
      row is saved (keeping the first author of the file) and the reply
      names the file id. */
  function SummarizeAndSaveLegacy(db: Db, v: Voice, text: string, cfg: Config, backend: seq<Outcome>): (r: Ingested)
    requires Valid(db)
    requires |backend| >= Tries(cfg)
    ensures 1 <= r.calls <= Tries(cfg) && r.calls <= |backend|
    ensures Valid(r.db)
    ensures forall j | 0 <= j < r.calls - 1 :: backend[j].Ok?
    ensures r.reply.Escaped? || r.reply.Summary?
    ensures r.reply.Escaped? <==> backend[r.calls - 1].Fault?
    ensures r.reply.Escaped? ==> r.db == db
    ensures r.reply.Summary? ==>
      && HasFile(r.db, v.fileId)
      && var id := Owner(r.db, v.fileId).value;
      && r.db.rows.Keys == db.rows.Keys + {id}
      && (HasFile(db, v.fileId) ==> Owner(db, v.fileId) == Some(id))
      && r.db.rows[id].text == text
      && Some(r.db.rows[id].summarized) == ReplyOf(backend[r.calls - 1])
      && r.db.rows[id].sentAt == v.sentAt
      && (!HasFile(db, v.fileId) ==>
            r.db.rows[id].userId == v.userId && r.db.rows[id].username == v.username && r.db.rows[id].note.None?)
      && (HasFile(db, v.fileId) ==>
            r.db.rows[id].userId == db.rows[id].userId && r.db.rows[id].username == db.rows[id].username
            && r.db.rows[id].note == db.rows[id].note)
      && r.reply.text == Templates.LegacySummaryReply(v.fileId, r.db.rows[id].summarized)
    ensures forall k | k in db.rows && db.rows[k].fileId != v.fileId :: k in r.db.rows && r.db.rows[k] == db.rows[k]
    ensures r.calls == SummarizeLegacy(text, cfg, backend).calls
  {
    var run := SummarizeLegacy(text, cfg, backend);
    if run.summary.None? then Ingested(db, Escaped, run.calls)
    else
      var s := Stored(db, Row(v, text, run.summary.value), KeepAuthor);
      Ingested(s.db, Summary(Templates.LegacySummaryReply(v.fileId, run.summary.value)), run.calls)
  }

  /** Without a fault the single-file bot summarises even an empty
      transcript and saves it. */
  lemma LegacyHasNoGuard(db: Db, v: Voice, cfg: Config, backend: seq<Outcome>)
    requires Valid(db)
    requires |backend| >= Tries(cfg)
    requires v.downloaded && v.transcript.Some?
    requires forall j | 0 <= j < Tries(cfg) :: backend[j].Ok?
    ensures OnVoiceLegacy(db, v, cfg, backend).reply.Summary?
    ensures HasFile(OnVoiceLegacy(db, v, cfg, backend).db, v.fileId)
  {
  }

  /** Replying `/delete` to the summary message deletes the very row the
      message was sent for. */
  lemma DeleteByReplyToSummary(db: Db, v: Voice, cfg: Config, backend: seq<Outcome>, command: string)
    requires Valid(db) && db.lastId < MaxInteger
    requires |backend| >= Tries(cfg)
    requires v.downloaded && v.transcript.Some? && |v.transcript.value| >= MinTranscript
    requires TrailingId(Strip(command)).None?
    ensures var r := OnVoiceIntended(db, v, cfg, backend);
      var d := Resolver.OnDelete(r.db, command, RepliedTo(None, Some(r.reply.text)));
      && d.answer == Resolver.DeletedId(Owner(r.db, v.fileId).value)
      && !HasFile(d.db, v.fileId)
  {
    var r := OnVoiceIntended(db, v, cfg, backend);
    var id := Owner(r.db, v.fileId).value;
    SummarizeAndSaveAdvancesCounter(db, v, v.transcript.value, cfg, backend);
    assert id <= MaxInteger;
    Resolver.ReplyToSummaryNamesItsRecord(command, id, r.db.rows[id].summarized);
    var d := Resolver.OnDelete(r.db, command, RepliedTo(None, Some(r.reply.text)));
    assert id !in d.db.rows;
  }

  /** Replying with new text to the summary message opens the edit dialog of
      the aiogram bot for that row. */
  lemma EditByReplyToSummary(db: Db, v: Voice, cfg: Config, backend: seq<Outcome>,
                             s: AiogramDialog.Sessions, k: Dialog.Key, text: string)
    requires Valid(db) && db.lastId < MaxInteger
    requires |backend| >= Tries(cfg)
    requires v.downloaded && v.transcript.Some? && |v.transcript.value| >= MinTranscript
    requires text != [] && text[0] != '/'
    ensures var r := OnVoiceIntended(db, v, cfg, backend);
      var o := AiogramDialog.Enter(s, r.db, k, Dialog.Text(text, RepliedTo(None, Some(r.reply.text))));
      && o.answer == Dialog.AskChoice
      && o.sessions[k] == Dialog.Pending(Owner(r.db, v.fileId).value, text)
  {
    var r := OnVoiceIntended(db, v, cfg, backend);
    var id := Owner(r.db, v.fileId).value;
    SummarizeAndSaveAdvancesCounter(db, v, v.transcript.value, cfg, backend);
    assert id <= MaxInteger;
    Templates.HeaderRoundTrip(id, r.db.rows[id].summarized);
  }

  /** A voice file processed twice keeps its row: the second run reports the
      same id and the table does not grow. */
  lemma ReprocessKeepsRow(db: Db, v: Voice, cfg: Config, b1: seq<Outcome>, b2: seq<Outcome>)
    requires Valid(db)
    requires |b1| >= Tries(cfg) && |b2| >= Tries(cfg)
    requires v.downloaded && v.transcript.Some? && |v.transcript.value| >= MinTranscript
    ensures var r1 := OnVoiceIntended(db, v, cfg, b1);
      var r2 := OnVoiceIntended(r1.db, v, cfg, b2);
      && Owner(r2.db, v.fileId) == Owner(r1.db, v.fileId)
      && r2.db.rows.Keys == r1.db.rows.Keys
      && LeadingId(r2.reply.text) == LeadingId(r1.reply.text)
  {
    var r1 := OnVoiceIntended(db, v, cfg, b1);
    var text := v.transcript.value;
    var m2 := Row(v, text, Summarize(text, cfg, b2).summary.value);
    var s2 := Save(r1.db, m2, OverwriteAll);
    assert HasFile(r1.db, v.fileId);
    var id := Owner(r1.db, v.fileId).value;
    assert s2.id == id;
    var r2 := OnVoiceIntended(r1.db, v, cfg, b2);
    assert Owner(r2.db, v.fileId).value == id;
    Templates.HeaderRoundTrip(id, r1.db.rows[id].summarized);
    Templates.HeaderRoundTrip(id, r2.db.rows[id].summarized);
  }

  /** On a long enough transcript and a backend that does not fail, the two
      versions store the same summary under the same id; the rows differ at
      most in the author columns. */
  lemma VersionsAgreeWithoutFaults(db: Db, v: Voice, cfg: Config, backend: seq<Outcome>)
    requires Valid(db)
    requires |backend| >= Tries(cfg)
    requires v.downloaded && v.transcript.Some? && |v.transcript.value| >= MinTranscript
    requires forall j | 0 <= j < Tries(cfg) :: backend[j].Ok?
    ensures var a := OnVoice(db, v, cfg, backend);
      var b := OnVoiceLegacy(db, v, cfg, backend);
      && a.calls == b.calls
      && a.db.rows.Keys == b.db.rows.Keys && a.db.lastId == b.db.lastId
      && forall k | k in a.db.rows ::
           a.db.rows[k].(userId := 0, username := None) == b.db.rows[k].(userId := 0, username := None)
  {
    var text := v.transcript.value;
    LegacyAgreesWithoutFaults(text, cfg, backend);
    PoliciesAgreeButOnAuthor(db, Row(v, text, Summarize(text, cfg, backend).summary.value));
  }
}
