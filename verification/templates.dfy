/**
 The fixed user-facing texts and format templates of the newer bots, plus
 the inline f-strings of the single-file bot. `str.format` with an integer
 argument spells it with `str(n)`, modelled by `NatToString`.
 */
module Templates {
  import opened Basics
  import opened Text
  import opened Messages

  const Pin := "\U{1F4CC}"
  const Fence := "```"

  /** SUMMARY_REPLY_HEADER_TEMPLATE: "#{record_id}\n📌 Резюме:\n```\n{summary}\n```". */
  function SummaryReplyHeader(recordId: nat, summary: string): string {
    "#" + NatToString(recordId) + "\n" + Pin + " Резюме:\n" + Fence + "\n" + summary + "\n" + Fence
  }

  /** SUMMARY_FOR_DATE_LINE_TEMPLATE: "{sent_at} — #{record_id}: {summary}". */
  function DateLine(sentAt: string, recordId: nat, summary: string): string {
    sentAt + " \U{2014} #" + NatToString(recordId) + ": " + summary
  }

  /** SUMMARY_FOR_DATE_NOTE_TEMPLATE: " └ Примечание: {note}". */
  function NoteLine(note: string): string {
    " \U{2514} Примечание: " + note
  }

  const PromptHead := "\nСделай краткое резюме объёмом от "
  const PromptMiddle := " до "
  const PromptTail := " символов \nдля следующего голосового сообщения:\n\n"

  /** PROMPT_SUMMARY_TEMPLATE filled with (min_len, max_len, text). */
  function SummaryPrompt(minLen: nat, maxLen: nat, text: string): string {
    PromptHead + NatToString(minLen) + PromptMiddle + NatToString(maxLen) + PromptTail + text + "\n"
  }

  /** The fixed result both backends substitute for a failed call. */
  const Apology := "Ошибка при генерации резюме. Пожалуйста, попробуйте позже."

  /** MSG_DELETE_SUCCESS: "✅ Запись #{record_id} удалена." */
  function DeleteSuccess(recordId: nat): string {
    "\U{2705} Запись #" + NatToString(recordId) + " удалена."
  }

  /** The reply after a delete by voice attachment (no id is shown). */
  const DeleteVoiceSuccess := "\U{2705} Запись удалена."

  /** MSG_DELETE_NOT_FOUND. */
  const DeleteNotFound := "\U{2753} Запись не найдена."

  /** The guidance listing the three accepted forms of /delete. */
  const DeleteUnresolvable :=
    "\U{2753} Не удалось определить запись для удаления.\n"
    + "Используйте форматы:\n"
    + "1. /delete #123\n"
    + "2. Ответом на голосовое сообщение\n"
    + "3. Ответом на сообщение с резюме"

  /** MSG_NO_SUMMARIES_FOR_DATE: "ℹ️ Нет резюме за {date_str}." */
  function NoSummariesFor(date: string): string {
    "\U{2139}\U{FE0F} Нет резюме за " + date + "."
  }

  /** The single-file bot's reply: "#{file_id} \n📌 Резюме: {summary}". */
  function LegacySummaryReply(fileId: string, summary: string): string {
    "#" + fileId + " \n" + Pin + " Резюме: " + summary
  }

  /** The single-file bot's listing line: "{sent_at} — #{telegram_file_id}: {summary}". */
  function LegacyDateLine(sentAt: string, fileId: string, summary: string): string {
    sentAt + " \U{2014} #" + fileId + ": " + summary
  }

  /** s occurs in p starting at index i. */
  predicate OccursAt(p: string, s: string, i: int) {
    0 <= i && i + |s| <= |p| && p[i..i + |s|] == s
  }

  /** a, then b, then x occur in p without overlapping, and x is followed
      by exactly one final character. */
  ghost predicate InOrder(p: string, a: string, b: string, x: string) {
    exists i, j, k ::
      && OccursAt(p, a, i) && OccursAt(p, b, j) && OccursAt(p, x, k)
      && i + |a| < j && j + |b| < k && k + |x| + 1 == |p|
  }

  /** The reply header parses back, with `^#(\d+)`, to exactly the id it was
      formatted with, whatever the summary says. */
  lemma {:induction false} HeaderRoundTrip(recordId: nat, summary: string)
    ensures LeadingId(SummaryReplyHeader(recordId, summary)) == Some(recordId)
  {
    var digits := NatToString(recordId);
    var rest := "\n" + Pin + " Резюме:\n" + Fence + "\n" + summary + "\n" + Fence;
    var h := SummaryReplyHeader(recordId, summary);
    assert h == "#" + (digits + rest);
    assert h[1..] == digits + rest;
    DigitPrefixOfDigitsThenOther(digits, rest);
  }

  /** A listing line begins with its timestamp, so unless the timestamp begins
      with '#' it is not summary-shaped for `^#(\d+)`. */
  lemma DateLineIsNotSummaryShaped(sentAt: string, recordId: nat, summary: string)
    requires sentAt != [] && sentAt[0] != '#'
    ensures LeadingId(DateLine(sentAt, recordId, summary)) == None
  {
  }

  /** The prompt spells min_len, then max_len, then the whole transcript, in
      that order, and the transcript is followed only by the final newline. */
  lemma PromptEmbedsInOrder(minLen: nat, maxLen: nat, text: string)
    ensures InOrder(SummaryPrompt(minLen, maxLen, text), NatToString(minLen), NatToString(maxLen), text)
  {
    assert |PromptMiddle| == 4;
    assert |PromptTail| > 0;
    assert SummaryPrompt(minLen, maxLen, text)
      == PromptHead + NatToString(minLen) + PromptMiddle + NatToString(maxLen) + PromptTail + text + "\n";
    SlotsInOrder(PromptHead, NatToString(minLen), PromptMiddle, NatToString(maxLen), PromptTail, text, "\n");
  }

  /** Where the three slots of a five-piece template land. */
  lemma SlotsInOrder(h: string, a: string, m: string, b: string, t: string, x: string, e: string)
    requires |m| > 0 && |t| > 0 && |e| == 1
    ensures InOrder(h + a + m + b + t + x + e, a, b, x)
  {
    var p := h + a + m + b + t + x + e;
    var i := |h|;
    var j := i + |a| + |m|;
    var k := j + |b| + |t|;
    assert OccursAt(p, a, i);
    assert OccursAt(p, b, j);
    assert OccursAt(p, x, k);
  }

  /** The delete confirmation shows the deleted id, and the not-found reply
      differs from the unresolvable guidance. */
  lemma DeleteTextsDistinct(recordId: nat)
    ensures exists i :: OccursAt(DeleteSuccess(recordId), NatToString(recordId), i)
    ensures DeleteNotFound != DeleteUnresolvable
    ensures DeleteSuccess(recordId) != DeleteNotFound
  {
    var d := NatToString(recordId);
    var head := "\U{2705} Запись #";
    assert DeleteSuccess(recordId) == head + d + " удалена.";
    assert OccursAt(DeleteSuccess(recordId), d, |head|);
    assert DeleteNotFound == "\U{2753} " + "Запись не найдена.";
    assert DeleteNotFound[2] == 'З';
    var first := "\U{2753} Не удалось определить запись для удаления.\n";
    assert first[2] == 'Н';
    assert DeleteUnresolvable[..|first|] == first;
    assert DeleteSuccess(recordId)[0] != DeleteNotFound[0];
  }
}
