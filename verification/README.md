# VoiceMemo-Assistant in Dafny

A model of the voice-note Telegram bot VoiceMemo-Assistant. A user sends a voice message. The bot transcribes it, summarises the transcript with a language model under a length window, and stores the transcript and summary in a SQLite table keyed by the Telegram file id. It answers with a summary message headed `#<id>`. Later the user can:

- list a day's summaries with `/sum [YYYY-MM-DD]`;
- delete a record with `/delete` (by id, or by replying to the voice or to the summary);
- edit a summary or attach a note by replying to the summary message and pressing a button.

The repository holds three versions of the bot, and the model covers all three:

- `bot/`, written for aiogram;
- `voice_memo_assistant/bot/`, written for python-telegram-bot;
- the older single-file `telegram_voice_daily_sum_bot.py.py`.

The two package versions share one database, language-model and template layer (`bot/database.py`, `bot/llm.py`, `voice_memo_assistant/bot/constants.py`). Their `on_voice`, `on_delete_command` and `on_sum_command` handlers are line-for-line the same apart from the framework calls. The one difference is where `/sum` finds its argument, and `SumCommand.OnSum` takes that argument as an input. So `Ingestion.OnVoice`, `Resolver.OnDelete` and `SumCommand.OnSum` each model both versions; the table below cites the aiogram lines. Both versions end `on_voice` with an edit call that raises after the row is saved. `Ingestion.OnVoice` models that as written, and `Ingestion.OnVoiceIntended` models the evident intent, which the reply-based lemmas use (see Findings). The two edit dialogs differ in substance and are modelled separately.

Modules, in dependency order:

| module | file | what it models |
|---|---|---|
| `Basics` | basics.dfy | `Option` |
| `Text` | text.dfy | Python's `strip`, ASCII `lower`, decimal digits, `str(n)`, `"sep".join`, code-point string order |
| `Messages` | messages.dfy | the reply context of a message; the `#?(\d+)$` and `^#(\d+)` searches |
| `Templates` | templates.dfy | the message templates and fixed texts |
| `Store` | store.dfy | the `voice_messages` table and its statements: upsert under two conflict policies, deletes, column updates, lookups |
| `Queries` | queries.dfy | the per-date listing queries of both schemas and `fetch_last_n` |
| `Summarizer` | summarizer.dfy | `LLMHandler.summarize`: length window, tolerance, the retry loop, faults |
| `Resolver` | resolver.dfy | `/delete`: the three resolution strategies and the store effect |
| `Dialog` | dialog.dfy | events, buttons and answers shared by both dialogs; the effect of a button |
| `AiogramDialog` | aiogram_dialog.dfy | the aiogram FSM of the edit/note dialog |
| `ConversationDialog` | conversation_dialog.dfy | the python-telegram-bot `ConversationHandler` of the same dialog, with timeout and fallback |
| `Ingestion` | ingestion.dfy | `on_voice` of the newer bots and of the single-file bot |
| `SumCommand` | sum_command.dfy | `/sum`: argument extraction, both date checks (regex and `strptime`), the listings |
| `Utils` | utils.dfy | `Utils.as_bool` |

Collaborators are inputs, not code:

- **Download and transcript.** The voice download result is a flag, and the recogniser's transcript is an `Option<string>` (None where it raised).
- **Language model.** Each call to the model is one element of a sequence of outcomes, `Ok(reply)` or `Fault`.
- **Clock.** The clock reading (`sent_at`) and today's date are parameters.
- **Time for the timeout.** Every dialog event carries its own time in seconds, which drives the 300-second conversation timeout.

## Model

| member | source | states |
|---|---|---|
| `Summarizer.Tries` | bot/llm.py:65 | at least one attempt, and no fewer than the configured tries |
| `Summarizer.Bounds` | bot/llm.py:67-72 | the window is [150, 250] below 500 characters; otherwise max_len is n div 3 and min_len is 150 or n div 5; always 150 <= min_len <= max_len |
| `Summarizer.Prompt` | bot/llm.py:79-84 | the prompt of every try holds min_len, then max_len, then the whole transcript, with only the final newline after it |
| `Summarizer.Guarded` | bot/llm.py:128-161 | a modelled backend outcome of the newer bot does not raise: a fault (any OpenAI exception, or an Ollama `RequestException`) becomes the (stripped) fixed apology, a reply is treated as in the single-file bot, and the text handed back has no surrounding whitespace |
| `Summarizer.Unguarded` | telegram_voice_daily_sum_bot.py.py:265-284 | in the single-file bot a fault raises and a reply comes back stripped (twice, like `_generate`) |
| `Summarizer.ReplyOf` | telegram_voice_daily_sum_bot.py.py:236-247 | `_generate` of the single-file bot yields nothing exactly for a fault, otherwise a trimmed text |
| `Summarizer.RetryFrom` | bot/llm.py:92-107 | the loop makes between 1 and `tries` calls; every call before the last produced an out-of-window text; the result is the last call's text, or an escape exactly when the last call raised; an out-of-window result means all tries were used |
| `Summarizer.Summarize` | bot/llm.py:63-107 | over modelled outcomes `summarize` returns a summary; it makes 1..Tries calls and stops at the first in-window text; otherwise it returns the last of exactly Tries texts; the result is the last call's text (the apology for a fault) and is trimmed |
| `Summarizer.SummarizeLegacy` | telegram_voice_daily_sum_bot.py.py:218-262 | the same loop, except that the first fault ends it with an exception; every earlier call succeeded with an out-of-window text |
| `Summarizer.RetryAgrees` | bot/llm.py:92-98 | the loop looks only at the attempts it reaches: two attempt sequences that agree there give the same run |
| `Summarizer.LegacyAgreesWithoutFaults` | telegram_voice_daily_sum_bot.py.py:249-262 | when no call fails, the single-file and newer `summarize` return the same summary after the same number of calls |
| `Summarizer.ApologyNeverAccepted` | bot/llm.py:134-136 | the 58-character apology is below every widened window for deviations up to 61 percent, so a failed call is always retried |
| `Summarizer.FaultThenFit` | bot/llm.py:92-98 | a fault followed by an in-window reply returns that reply after exactly two calls |
| `Store.EmptyValid` | bot/database.py:19-29 | the empty table satisfies the invariants: every id came from the AUTOINCREMENT counter, and file ids are unique |
| `Store.Owner` | bot/database.py:107-120 | the lookup by file id finds a row exactly when one holds that file id, and it is that row |
| `Store.FetchById` | bot/database.py:92-105 | the lookup by id finds a row exactly when the id is in the table, and returns it |
| `Store.Updated` | bot/database.py:76-81 | an upsert on an existing row keeps its file id and note and replaces text, summary and sent_at; the author columns are replaced (newer) or kept (single-file) |
| `Store.Save` | bot/database.py:70-90 | `save_message` keeps the invariants. A new file id gets a row with id lastId+1, no note and the given values. A known file id updates its row in place under the same id. Either way the AUTOINCREMENT counter advances by one. No other row changes, and the returned id holds the file id |
| `Store.SaveSameFileKeepsId` | bot/database.py:71-82 | saving the same file id twice returns the same id and does not grow the table, but the counter still advances |
| `Store.ResaveSkipsAnId` | bot/database.py:71-82 | after a new file A, a re-save of A and a new file B, B's id is two above A's: the upsert used up one id |
| `Store.OwnerAfterSave` | bot/database.py:82-90 | after a save, the file id belongs to the row whose id the save returned |
| `Store.NewIdIsFresh` | bot/database.py:21 | a newly inserted row's id exceeds every id in the table before it |
| `Store.PoliciesAgreeButOnAuthor` | telegram_voice_daily_sum_bot.py.py:165-176 | the single-file upsert and the newer one give the same ids and the same rows except for user_id and username |
| `Store.DeleteById` | bot/database.py:143-157 | reports a hit exactly when the id existed; removes only that id; every other row and the counter are unchanged |
| `Store.DeleteByFileId` | bot/database.py:159-173 | reports a hit exactly when a row held the file id; afterwards none does; other rows are unchanged; a miss changes nothing |
| `Store.SaveThenDelete` | bot/database.py:143-157 | deleting a freshly inserted row by the returned id hits and restores the earlier rows |
| `Store.DeleteByFileIdTwice` | bot/database.py:159-173 | a second delete of the same file id reports no row |
| `Store.SetColumn` | bot/database.py:175-209 | `update_summary` / `add_note_to_record` report a hit exactly when the id exists, change only that column of that row, and change nothing on a miss |
| `Store.SetColumnThenFetch` | bot/database.py:175-209 | reading the row back after an update gives the written value and the other column as before |
| `Queries.EarliestExists` | bot/database.py:137 | every non-empty set of rows has one with the least sent_at, so the ORDER BY is well defined |
| `Queries.IdsOnDate` | bot/database.py:132-141 | the ids of exactly the rows whose sent_at starts with the date, each once, in ascending sent_at |
| `Queries.FetchSummariesByDate` | bot/database.py:122-141 | exactly the rows of the date, each once, as (id, sent_at, summarized, note), in ascending sent_at |
| `Queries.FetchSummariesByDateLegacy` | telegram_voice_daily_sum_bot.py.py:187-201 | the same rows in the same order, as (sent_at, telegram_file_id, summarized) |
| `Queries.FetchLastN` | telegram_voice_daily_sum_bot.py.py:181-185 | strictly descending ids of min(n, rows) rows (all rows for a negative n); every row left out is older than every row returned |
| `Messages.TrailingId` | bot/telegram_handler.py:265-267 | `#?(\d+)$` matches exactly when the text ends in a digit; the id is the value of the maximal digit run at the end |
| `Messages.LeadingId` | bot/telegram_handler.py:289-291 | `^#(\d+)` matches exactly when the text starts with '#' and a digit; the id is the value of the maximal digit run after the '#' |
| `Messages.TrailingIdOfSpelledId` | bot/telegram_handler.py:258-267 | a command ending in `str(n)` after a non-digit yields id n (`/delete 123`, `/delete #123`) |
| `Resolver.Resolve` | bot/telegram_handler.py:262-296 | first match wins: a trailing id in the stripped command, else the file id of a voice replied to, else a leading `#id` in the replied text; unresolvable exactly when none applies |
| `Resolver.OnDelete` | bot/telegram_handler.py:253-305 | a spelled id above 2^63-1 raises in the database driver, and nothing changes or is sent; a success removes exactly the named row; a resolved target that is absent answers not-found and changes nothing (no fall-through to a later strategy); unresolvable answers the guidance and changes nothing |
| `Resolver.ExplicitIdIgnoresReply` | bot/telegram_handler.py:264-272 | an id n at the end of the stripped command resolves to n whatever message is replied to |
| `Resolver.VoiceBeatsReplyText` | bot/telegram_handler.py:278-285 | a reply to a voice message resolves to its file id whatever text that message carries |
| `Resolver.ReplyToSummaryNamesItsRecord` | bot/telegram_handler.py:287-296 | `/delete` as a reply to the bot's summary message names the record the summary was sent for |
| `Resolver.SpelledIdResolves` | bot/telegram_handler.py:258-272 | "/delete #n" and "/delete n" name record n whatever they reply to |
| `Resolver.TrimmedIdResolves` | bot/telegram_handler.py:262-267 | a trimmed command with a trailing id n resolves to n |
| `Resolver.DeleteBySpelledId` | bot/telegram_handler.py:264-272 | such a command deletes record n when it exists, and otherwise answers not-found with the store unchanged; an n above 2^63-1 escapes with the store unchanged |
| `Resolver.AnswersDistinguishable` | bot/telegram_handler.py:268-305 | not-found differs from the guidance, and a success differs from not-found |
| `Templates.HeaderRoundTrip` | voice_memo_assistant/bot/constants.py:50 | the summary header parsed with `^#(\d+)` gives back exactly the id it was formatted with, whatever the summary |
| `Templates.DateLineIsNotSummaryShaped` | voice_memo_assistant/bot/constants.py:51 | a listing line whose timestamp does not start with '#' has no leading id |
| `Templates.PromptEmbedsInOrder` | voice_memo_assistant/bot/constants.py:6-11 | the prompt spells min_len, then max_len, then the whole transcript, followed only by the final newline |
| `Templates.DeleteTextsDistinct` | voice_memo_assistant/bot/constants.py:37-38 | the delete confirmation contains the id; not-found differs from the guidance and from the confirmation |
| `Text.Strip` | bot/telegram_handler.py:262 | `str.strip()` returns a text no longer than its input with no whitespace at either end |
| `Text.StripIsInfix` | bot/telegram_handler.py:262 | what strip removes is whitespace before and after the returned infix |
| `Text.StripIdempotent` | bot/llm.py:85-89 | stripping twice equals stripping once, so the double strip of `_generate` is a single one |
| `Text.StripOfPadded` | bot/utils.py:29 | strip removes exactly the whitespace padding around a non-empty trimmed text |
| `Text.Lower` | bot/utils.py:29 | lowering keeps the length and maps each character on its own |
| `Dialog.SummaryIdOf` | bot/telegram_handler.py:312-324 | the entry finds an id only in a reply whose text starts with '#' and digits, and it is that id |
| `Dialog.ApplyChoice` | bot/telegram_handler.py:352-406 | cancel changes nothing. Edit or note changes the store exactly when the pending id is non-zero, the text is non-empty and the row exists, and then changes only that column. A vanished row answers not-found; missing data answers the generic error |
| `AiogramDialog.Enter` | bot/telegram_handler.py:307-350 | the dialog opens exactly for a reply to an existing summary, and the pending edit is (that id, the reply text); a header id above 2^63-1 escapes from the lookup; otherwise the storage is untouched and the answer says why |
| `AiogramDialog.Step` | bot/telegram_handler.py:98-121 | other keys are untouched; a non-entry message or a press without a waiting state is not handled; a press in the waiting state applies the choice to the pending edit and clears the state |
| `AiogramDialog.SecondEntryOverwrites` | bot/telegram_handler.py:332-334 | a second valid entry replaces the pending edit of the first |
| `AiogramDialog.FailedEntryKeepsSession` | bot/telegram_handler.py:314-330 | a failed entry (no summary id, an absent record, or an id the lookup cannot bind) neither starts nor disturbs a dialog and does not touch the store |
| `AiogramDialog.EntryThenEdit` | bot/telegram_handler.py:352-373 | reply then "edit": the record's summary becomes the reply text, nothing else changes, the state is cleared, and the last answer is the update confirmation |
| `AiogramDialog.Run` | bot/telegram_handler.py:98-121 | a sequence of updates is handled one by one through `Step`, keeping the invariants; no update leaves things as they were, and a single update is exactly `Step` |
| `AiogramDialog.RunConcat` | bot/telegram_handler.py:98-121 | handling two batches of updates one after the other is handling them together: state and store carry over, and the answer is the last update's |
| `AiogramDialog.ChoiceHonouredOnce` | bot/telegram_handler.py:107-121 | after any button, a second press of the same user in the same chat is not handled and changes nothing |
| `AiogramDialog.KeysIsolated` | bot/telegram_handler.py:307-334 | an update for one (chat, user) never changes another key's pending edit |
| `ConversationDialog.SlotOf` | voice_memo_assistant/bot/telegram_handler.py:356-358 | `user_data` is kept per user as written, per (chat, user) as intended |
| `ConversationDialog.End` | voice_memo_assistant/bot/telegram_handler.py:406-409 | ending removes the conversation and clears its data slot and keeps every other conversation |
| `ConversationDialog.Enter` | voice_memo_assistant/bot/telegram_handler.py:335-376 | the conversation opens exactly for a reply to an existing summary, with a deadline 300 s later and the pending edit stored; a header id above 2^63-1 escapes from the lookup with nothing changed; otherwise it returns END with nothing changed |
| `ConversationDialog.Step` | voice_memo_assistant/bot/telegram_handler.py:101-123 | earlier handlers take commands and voice. In AWAITING_CHOICE, a message hits the fallback and a button applies the choice and ends the conversation. Outside it, only the entry is consulted. The store changes only on a live button press |
| `ConversationDialog.StepKeepsPaired` | voice_memo_assistant/bot/telegram_handler.py:356-358 | with per-(chat, user) data, every live conversation keeps its own pending edit across any update |
| `ConversationDialog.LivePressFindsPending` | voice_memo_assistant/bot/telegram_handler.py:394-397 | with per-(chat, user) data, a press in a live conversation always finds its pending edit |
| `ConversationDialog.FallbackCancels` | voice_memo_assistant/bot/telegram_handler.py:466-486 | any message in a live conversation, including a second reply to a summary, aborts it: the store is unchanged, the conversation is over and its data is gone |
| `ConversationDialog.TimeoutMakesPressInert` | voice_memo_assistant/bot/telegram_handler.py:122 | a press 300 s or more after the entry is not handled and changes nothing |
| `ConversationDialog.EntryThenEditInTime` | voice_memo_assistant/bot/telegram_handler.py:378-409 | reply then "edit" within the timeout: the summary becomes the reply text, and the conversation is over |
| `ConversationDialog.ChatsIsolated` | voice_memo_assistant/bot/telegram_handler.py:356-358 | with per-(chat, user) data, an update for one key never changes another key's pending edit |
| `ConversationDialog.SharedUserDataCrossesChats` | voice_memo_assistant/bot/telegram_handler.py:356-358 | as written: one user editing in two chats has chat A's "edit" apply chat B's text to chat B's record, and chat B's later "edit" answers the generic error |
| `ConversationDialog.SeparateUserDataKeepsChatsApart` | voice_memo_assistant/bot/telegram_handler.py:356-358 | corrected: the same updates edit each chat's own record with its own text |
| `Ingestion.OnVoice` | bot/telegram_handler.py:161-210 | as written. A transcript under 5 characters answers the recognition failure; every other case answers the generic failure. A failed download or recognition saves nothing and calls no model. A transcript that passes the guards is saved with its text, after one to the try budget of model calls, because the final edit raises only after the save |
| `Ingestion.OnVoiceIntended` | bot/telegram_handler.py:161-202 | as intended. A failed download or recognition answers the failure, and a transcript under 5 characters answers the recognition failure; both save nothing and call no model. Every other transcript gets the summary answer from `SummarizeAndSave` |
| `Ingestion.SummarizeAndSave` | bot/telegram_handler.py:180-202 | the model is called exactly as often as the summariser's retry loop stops after. The file's row, overwritten if present, holds the transcript, the guarded reply of that last call and the author. The reply header starts with that row's id. The key set grows by that id only, an earlier row of the file keeps its id, sent_at and author are the voice note's, and an earlier note survives. Rows of other files are unchanged |
| `Ingestion.SummarizeAndSaveAdvancesCounter` | bot/database.py:71-82 | every processed voice note advances the row-id counter by one, new row or overwrite |
| `Ingestion.SavedButFailureAnswered` | bot/telegram_handler.py:193-210 | past the guards, the handler as written answers the generic failure over the same store and call count as the intended one, whose answer is the header of the saved row |
| `Ingestion.GuardsAgree` | bot/telegram_handler.py:161-178 | when the guards stop the voice, the handler as written and the intended one give the same answer and leave the store unchanged |
| `Ingestion.OnVoiceLegacy` | telegram_voice_daily_sum_bot.py.py:385-419 | a failed download or recognition escapes with nothing saved and no model call; otherwise the transcript, whatever its length, goes to `SummarizeAndSaveLegacy` |
| `Ingestion.SummarizeAndSaveLegacy` | telegram_voice_daily_sum_bot.py.py:402-419 | the model is called exactly as often as the single-file retry loop runs. The handler escapes exactly when the last model call faulted, and then nothing is saved. Earlier calls all succeeded. Otherwise the row holds the transcript and the stripped reply, the key set grows by that row's id only, an earlier row keeps its id, author and note, sent_at is the voice note's, rows of other files are unchanged, and the reply names the file id |
| `Ingestion.LegacyHasNoGuard` | telegram_voice_daily_sum_bot.py.py:397-413 | without faults the single-file bot saves even an empty transcript |
| `Ingestion.DeleteByReplyToSummary` | bot/telegram_handler.py:184-202 | with the intended handler, `/delete` in reply to the summary message deletes the row just saved |
| `Ingestion.EditByReplyToSummary` | bot/telegram_handler.py:312-334 | with the intended handler, a text reply to the summary message opens the aiogram edit dialog for the row just saved |
| `Ingestion.ReprocessKeepsRow` | bot/database.py:76-82 | with the intended handler, processing the same voice twice keeps its row id and does not grow the table, and both answers name the same id |
| `Ingestion.VersionsAgreeWithoutFaults` | telegram_voice_daily_sum_bot.py.py:402-413 | on a long enough transcript and no faults, the newer and single-file handlers store the same rows under the same ids, except for the author columns |
| `SumCommand.Argument` | voice_memo_assistant/bot/telegram_handler.py:222-227 | `text.strip().split(maxsplit=1)` has a second part exactly when the stripped text contains whitespace. That part is what follows the cut after the first word and its whitespace run, and it is non-empty and trimmed |
| `SumCommand.SplitPointUnique` | voice_memo_assistant/bot/telegram_handler.py:222-227 | a stripped text has at most one such cut, so the second part is determined |
| `SumCommand.ArgumentOfCommand` | voice_memo_assistant/bot/telegram_handler.py:222-227 | "/sum 2024-05-01" yields the argument "2024-05-01", for any command word, whitespace separator and argument without whitespace |
| `SumCommand.DaysIn` | telegram_voice_daily_sum_bot.py.py:429 | month lengths of the Gregorian calendar: 28..31, and February has 29 days exactly in leap years |
| `SumCommand.MonthToken` | telegram_voice_daily_sum_bot.py.py:429 | `%m` accepts one non-zero digit or two digits valued 1..12 |
| `SumCommand.DayToken` | telegram_voice_daily_sum_bot.py.py:429 | `%d` must consume the rest. It accepts one non-zero digit, two digits valued 1..31, or a space and a non-zero digit, and yields that number. Every other string is refused |
| `SumCommand.Strptime` | telegram_voice_daily_sum_bot.py.py:428-432 | a date comes back exactly when four digits and a '-' are followed by a month token, a '-' and a day token that together form a real date. That date is the year of the four digits with the tokens' month and day |
| `SumCommand.IsoDateRoundTrip` | bot/telegram_handler.py:217-225 | every real date written as `isoformat()` writes it passes the pattern, and strptime reads it back as the same date |
| `SumCommand.StrptimeTakesUnpadded` | telegram_voice_daily_sum_bot.py.py:426-432 | strptime accepts "2024-2-5", which the newer pattern refuses |
| `SumCommand.StrptimeFebruary29` | telegram_voice_daily_sum_bot.py.py:428-432 | strptime reads "YYYY-02-29" as that date when the year is a leap year, and refuses it otherwise |
| `SumCommand.PatternTakesMissingDay` | bot/telegram_handler.py:217-222 | for every year that is not a leap year, the newer pattern accepts "YYYY-02-29", which strptime refuses |
| `SumCommand.ListingLines` | bot/telegram_handler.py:235-248 | no rows give no lines, and the listing starts with the first row's line |
| `SumCommand.ListingLength` | bot/telegram_handler.py:235-248 | one line per row plus one per non-empty note |
| `SumCommand.NoNotesOneLineEach` | bot/telegram_handler.py:235-251 | rows without notes list as exactly their own lines, in order |
| `SumCommand.OnSum` | bot/telegram_handler.py:212-251 | a non-empty argument that fails the pattern is refused without a query; otherwise the date is the argument or today; exactly that date's rows are listed in ascending sent_at, the empty notice comes exactly when there are none, and the listing is the lines joined by blank lines |
| `SumCommand.LegacyLines` | telegram_voice_daily_sum_bot.py.py:445-447 | one "sent_at — #file_id: summary" line per row, in order |
| `SumCommand.OnSummaryLegacy` | telegram_voice_daily_sum_bot.py.py:421-450 | an argument strptime refuses is refused without a query; otherwise exactly that date's rows are listed in ascending sent_at, joined by single newlines |
| `SumCommand.ListingNotSummaryShaped` | voice_memo_assistant/bot/constants.py:51 | a listing whose first timestamp does not start with '#' has no leading id |
| `SumCommand.ReplyToListingIsInert` | bot/telegram_handler.py:312-320 | replying to a listing neither opens the edit dialog (the storage is unchanged) nor names a record for `/delete` |
| `Utils.AsBool` | bot/utils.py:24-29 | a boolean is returned unchanged and None reads as false |
| `Utils.PaddedTrueWord` | bot/utils.py:29 | "1", "true", "yes" and "on" read as true in any case and with any whitespace around them |
| `Utils.TrueOnlyForShortTexts` | bot/utils.py:29 | only a text whose stripped form has 1 to 4 characters can read as true; so "", "false" and every longer text read as false |

## Left out

- Speech recognition (`voice_memo_assistant/bot/stt.py`, `SpeechToText`): floating-point audio processing in foreign libraries. The transcript is an input.
- The HTTP and OpenAI calls: network I/O. Each call is an `Ok(reply)` or a `Fault`.
- Telegram transport: downloads, sending and editing messages, keyboards, handler registration, polling. Events are inputs and answers are datatypes. Command classification (known command, voice, text, other) is taken as given.
- Configuration loading (`bot/config.py`, `bot/main.py`), logging, and `Utils.ensure_parent`. These are startup and filesystem work.
- `Utils.now_utc` and the time zone of the default date. The clock reading and today's date are parameters.
- SQLite internals: pragmas, commits, threads. The AUTOINCREMENT counter is unbounded; its overflow at 2^63-1 is not modelled, and `Ingestion.DeleteByReplyToSummary` and `Ingestion.EditByReplyToSummary` assume the counter is below it. A failing statement (an exception from `save_message`) is not modelled.
- `Summarizer.Summarize`: the tolerance comparison is exact integer arithmetic, 100·length against min_len·(100−d) and max_len·(100+d). The source compares against floats, so a length right at a bound may be judged differently when (100−d)/100 is not exact in binary.
- `Queries.FetchSummariesByDate`: `LIKE '<date>%'` is a prefix test. This matches what LIKE does for the digit-and-hyphen dates the handlers let through, but not for an argument containing `%`, `_` or ASCII letters of another case. Rows with equal sent_at may come back in any order.
- `Queries.FetchLastN`: returns the ids of the rows, not the full tuples.
- `Text.Lower`: only ASCII letters are lowered. For `as_bool` this is exact, since no other character lowers into the letters of the four words. Digits are ASCII digits; `\d` in Python also matches other Unicode decimal digits.
- `Utils.AsBool`: for a string, the contract states the true words (`PaddedTrueWord`) and the length bound of every true text (`TrueOnlyForShortTexts`). It does not list each false string such as "0" or "no" separately.
- `Summarizer.Guarded`, `Summarizer.Summarize`: the Ollama branch catches only `RequestException`. A successful HTTP answer whose JSON is not an object, or whose "response" is null or not a string, raises `AttributeError` out of `summarize`; `on_voice` then answers the generic failure with nothing saved. An `Ok | Fault` outcome cannot express that reply, so these contracts cover only replies that are a string and transport failures.
- `Store.FetchById`, `Store.DeleteById`, `Store.SetColumn`, `Dialog.ApplyChoice`: an id above 2^63-1 makes sqlite3 raise `OverflowError` before the statement runs; here such an id is simply absent. The handlers that take an id from user text (`Resolver.OnDelete`, `AiogramDialog.Enter`, `ConversationDialog.Enter`) model the escape before calling the store, and `Dialog.ApplyChoice` only sees ids that an entry has already found.
- `Summarizer.Summarize`: the model backend is a given sequence of outcomes, one per try. `Summarizer.Prompt` states what each try sends, but the outcomes are not a function of it.
- `Ingestion.OnVoice`, `Ingestion.OnVoiceIntended` and `Ingestion.OnVoiceLegacy` require the model's outcome sequence to cover the maximum number of tries. The handlers call the model at most that often.
- `Ingestion.OnVoiceLegacy`: in the single-file bot the download and recognition are outside any `try`. A failure there is an exception leaving the handler, modelled as `Escaped`.
- `SumCommand.OnSum` takes the aiogram `command.args` as its input rather than parsing it. The python-telegram-bot version obtains it as `SumCommand.Argument`.
- `ConversationDialog.Step`: the conversation timeout is applied lazily. An expired conversation simply stops being live, and the timeout handlers of python-telegram-bot (none are registered) do not run.
- The `/start`, `/help` and unknown-command handlers are not modelled. They send fixed texts.

## Findings

| source | as written | input that shows it | evidently intended | confidence | as-written member | corrected member |
|---|---|---|---|---|---|---|
| voice_memo_assistant/bot/telegram_handler.py:356-358 | the pending edit lives in `context.user_data`, which is one dictionary per user; the conversation itself is keyed per (chat, user) | one user replies to summary 1 with text x in chat A, then to summary 2 with text y in chat B, then presses "edit" in A and then in B. Record 2 gets y from A's press, record 1 is untouched, and B's press answers the generic error | each conversation keeps its own pending edit, so A edits record 1 with x and B edits record 2 with y | not executed | `ConversationDialog.SharedUserDataCrossesChats` | `ConversationDialog.SeparateUserDataKeepsChatsApart` |
| bot/telegram_handler.py:194-202 | step 5 edits the progress message with `reply_to_message_id=...`. Neither aiogram 3's `Bot.edit_message_text` nor python-telegram-bot's `Message.edit_text` (voice_memo_assistant/bot/telegram_handler.py:198-205) has that parameter or accepts extra keywords, so the call raises `TypeError` inside the `try`, after the row was saved | any voice note whose transcript has at least 5 characters: the row is saved, and the user is told "an error occurred while processing" instead of getting the `#<id>` summary | the summary header is sent (as a reply, or by an edit without that keyword), so the user can reply to it to edit or delete the record | not executed | `Ingestion.OnVoice`, `Ingestion.SavedButFailureAnswered` | `Ingestion.OnVoiceIntended` |
