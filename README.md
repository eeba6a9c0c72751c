# x-bot-replier, modelled in Dafny

x-bot-replier is a small bot that answers mentions of an account on X. Every
poll cycle (`pollMentions`) does four things:
- it fetches the latest mentions;
- it builds a map from author ids to usernames;
- it walks the batch oldest first, replying to each mention with a template
  in which `{username}` is replaced by the author's handle;
- it records its progress in a one-line cursor file (`last_mention_id.txt`),
  which also serves as a duplicate guard.

The guard and the cursor decide which mentions get a reply:
- mentions written by the bot itself are skipped, but still move the cursor;
- a mention whose id is not above the stored cursor is skipped;
- a reply refused with 429 ends the cycle with the cursor left where it was;
- any other outcome (success, 403, or another failure) moves the cursor to
  that mention.

The project has these modules:

- `Text` (`text.dfy`): the two JavaScript string operations the bot relies on.
  - `trim` removes ECMAScript whitespace from both ends.
  - `replace` with a string pattern replaces only the first occurrence and
    expands `$$`, `$&`, `` $` `` and `$'` in the replacement.
- `Numerals` (`numerals.dfy`): what the cursor file holds and how it is read.
  - The decimal form of an id.
  - `BigInt(string)`: whitespace trimmed, a blank string read as 0, an
    optional sign, `0x`/`0o`/`0b` literals, anything else a SyntaxError.
- `CursorStore` (`cursor.dfy`): `loadLastMentionId`, the text that
  `saveLastMentionId` writes, and what the duplicate guard reads from the file.
- `Mentions` (`mentions.dfy`): the mention and author records, the reply
  template, the author map, the `"friend"` fallback, the reply text, and the
  oldest-first order.
- `Dispatch` (`dispatch.dfy`): the cycle as a specification over values.
  - `Step` handles one mention, `Run` an oldest-first batch, and `Cycle`
    what the fetch returned.
  - The platform's reply call is a function parameter
    `post: Reply -> ReplyOutcome`.
- `BotLoop` (`bot.dfy`): class `Bot` runs the cycle imperatively.
  - The cursor file is a field that the methods overwrite mention by mention.
  - A ghost log `posted` records every reply call.
  - `PollMentions` is proved to end with exactly the file and trace that
    `Cycle` gives.
- `DispatchProperties` (`dispatch_props.dfy`): what the dispatcher guarantees.
  - Per-mention decisions.
  - Processing order, and cutting the batch short only at a stop.
  - The rate-limit abort.
  - The cursor never moving back.
  - Across cycles and restarts, no mention is replied to after it has been
    resolved.
- `DispatchScenarios` (`scenarios.dfy`): worked cycles over three mentions:
  a whole batch answered oldest first, a rate limit at the second reply, and
  the retry in the next cycle.
- `CycleOverlap` (`overlap.dfy`): two cycles that reach the same mention,
  overlapped and one after the other (see Findings).

A stored cursor that `BigInt` rejects: `BigInt(lastId)` (bot.js:89) throws
for the first mention from someone else, and the outer `catch` ends the
cycle with nothing written; this is `AbortedBadCursor` in the model.

## Model

| member | source | states |
|---|---|---|
| Text.Trim | bot.js:25 | The result is the input with its whitespace ends cut off: `s == lead + r + trail` with both ends all whitespace. `r` neither starts nor ends with whitespace, and `r` is empty exactly when `s` is all whitespace. |
| Text.TrimSlice | bot.js:25 | Cutting a string where its leading and trailing whitespace runs end gives a slice with the three properties of `trim`. |
| Text.IndexOfFrom | bot.js:92 | The search returns the first position at or after `from` where the pattern occurs. It returns nothing exactly when the pattern occurs nowhere from `from` on. |
| Text.IndexOfFromFinds | bot.js:92 | Conversely, an occurrence with no earlier occurrence is exactly what the search returns. |
| Text.Substitution | bot.js:92 | The replacement text is expanded as ECMAScript's GetSubstitution does for a string pattern. `SubstitutionOfPlainText` shows a `$`-free replacement is inserted verbatim. `ReplaceWithMatch` shows `$&` expands to the matched text. |
| Text.SubstitutionOfPlainText | bot.js:92 | A replacement text without `$` is inserted verbatim. |
| Text.ReplaceFirst | bot.js:92 | `replace` with a string pattern. The properties are in three lemmas. `ReplaceAbsent`: the string is unchanged when the pattern does not occur. `ReplaceAtFirst`: only the first occurrence is replaced. `ReplaceWithMatch`: a `"$&"` replacement gives back the string. |
| Text.ReplaceAbsent | bot.js:92 | `replace` returns the string unchanged when the pattern does not occur. |
| Text.ReplaceAtFirst | bot.js:92 | With a `$`-free replacement and first occurrence `i`, the string splits around the pattern at `i`. The pattern occurs nowhere before `i`, and the result has the replacement in place of that occurrence only. |
| Text.ReplaceWithMatch | bot.js:92 | Replacing a pattern with `"$&"` leaves every string as it was, whether or not the pattern occurs, because `$&` stands for the matched text. |
| Numerals.Decimal | bot.js:31-33 | The id's text is a non-empty run of decimal digits. It starts with `0` only for the id 0. |
| Numerals.DecimalValue | bot.js:31-33 | Reading the decimal digits of `n` back gives `n`. |
| Numerals.ParseBigInt | bot.js:89 | `BigInt(string)` on the stored cursor: the string is trimmed, a blank string is 0, and there is an optional sign and `0x`/`0o`/`0b` prefixes. Anything else has no value. `ParseDigits`, `ParseDecimal` and `ParseNegativeDecimal` state its value on digit strings. |
| Numerals.ParseDigits | bot.js:89 | `BigInt` of a run of decimal digits is their positional value. |
| Numerals.ParseDecimal | bot.js:89 | `BigInt` of an id's decimal text is the id. |
| Numerals.ParseNegativeDecimal | bot.js:89 | `BigInt` of `-` followed by an id's decimal text is the negated id. The bot never writes such a cursor; it describes a hand-edited file, which the guard then reads as a negative cursor. |
| CursorStore.LoadLastMentionId | bot.js:23-29 | A missing, unreadable, empty or all-blank file gives "no cursor", and only those do. Otherwise the result is the trimmed, non-empty text, with no whitespace at either end. |
| CursorStore.ReadCursor | bot.js:88-89 | What the duplicate guard makes of the file. No loaded text gives "no cursor", text that `BigInt` accepts gives its value, and any other text gives an unparsable cursor. `ReadSavedCursor` and `Dispatch.SavedIsRead` show a saved id reads back as itself. |
| CursorStore.ReadSavedCursor | bot.js:31-33 | A saved id loads back as its own text, and the duplicate guard reads it as exactly that id. |
| Mentions.ReplyTemplate | bot.js:9-11 | A configured, non-empty template is used as it is. Otherwise the result is exactly the built-in template, which holds the `{username}` placeholder at position 5. The template is never empty. |
| Mentions.UserMapOf | bot.js:67-72 | The author map of a batch. `UserMapLastWins` shows its domain is the ids of the records, and each id maps to its last record's username. `BuildUserMap` shows the loop builds exactly this map. |
| Mentions.BuildUserMap | bot.js:67-72 | The loop over the author records builds `UserMapOf(users)`. |
| Mentions.UserMapLastWins | bot.js:67-72 | An id is in the map exactly when some record carries it, and it maps to the username of the last such record. |
| Mentions.Handle | bot.js:79 | The handle is the author's mapped username when that is present and non-empty, and `"friend"` otherwise. It is never empty. |
| Mentions.HandleInBatch | bot.js:79 | An author's handle is the username of the author's last record if that username is non-empty, and `"friend"` otherwise. |
| Mentions.HandleOfUnknownAuthor | bot.js:79 | An author with no record in the batch is addressed as `"friend"`. |
| Mentions.ReplyText | bot.js:92 | The reply text is the template with its first `{username}` replaced by the handle. `ReplyTextExample` shows it for a concrete template. `DispatchProperties.ReplyResolvesOrStops` shows every reply call carries it. |
| Mentions.ReplyTextExample | bot.js:92 | Filling `"Hi @{username}!"` with a handle free of `$` gives `"Hi @"`, then the handle, then `"!"`. |
| Mentions.Reversed | bot.js:75 | The processing order is the fetched batch read from its end: same length, and element `i` is element `n-1-i` of the input. |
| Dispatch.SavedIsRead | bot.js:31-33 | After a save, re-reading the file gives the saved id as the cursor. |
| Dispatch.Classify | bot.js:105-116 | The outcome is read as follows: 429 is the only answer that stops the cycle, a posted reply is `Replied`, and 403 is `SkippedForbidden`. No other verdict can come from a reply call. |
| Dispatch.Step | bot.js:78-119 | One mention: the self check, the guard on the re-read cursor, the reply call and its outcome. Its properties are in `StepShape`, `SelfMentionSetsCursor`, `GuardSkipsSeen`, `ReplyResolvesOrStops` and `UnparsableCursorStops`. `BotLoop.Bot.HandleMention` is proved equal to it. |
| Dispatch.StepShape | bot.js:77-119 | A step adds one trace line for its own mention, and either keeps the store or saves the mention's id. It keeps the store when it stops. A self-authored mention is saved without a reply. A reply call is made only for a mention from someone else above the cursor; it is addressed to that mention and stops the cycle exactly on 429. |
| Dispatch.Run | bot.js:77-120 | The loop over the oldest-first batch, ending at the first step that stops. Its properties are in `RunFollowsBatch`, `RunStopsOnlyAtEnd`, `RunCutShortStops`, `RunSplit`, `RateLimitStopsBatch`, `RunNeverGoesBack` and `RunKeepsRepliedAtMostOnce`. `BotLoop.Bot.ProcessBatch` is proved equal to it. |
| Dispatch.Cycle | bot.js:45-128 | One poll cycle on the loaded file and the fetch's result. Its properties are in `CycleWithoutMentions`, `CycleOrder` and `CycleKeepsRepliedAtMostOnce`. `BotLoop.Bot.PollMentions` is proved equal to it. |
| BotLoop.Bot.SaveLastMentionId | bot.js:31-33 | The file afterwards holds the id, and re-reading it gives that id. |
| BotLoop.Bot.PollMentions | bot.js:45-128 | The cursor file and trace after one poll cycle are those of `Cycle`, and every reply call made is appended to the log. |
| BotLoop.Bot.ProcessBatch | bot.js:77-120 | The loop over the oldest-first batch leaves the file and trace of `Run`, and logs exactly the trace's reply calls. |
| BotLoop.Bot.HandleNext | bot.js:77-120 | One iteration of the loop keeps the loop's invariant. The whole batch is the trace so far followed by the rest, or the trace is complete when the mention stops the cycle. |
| BotLoop.Bot.HandleMention | bot.js:78-85 | Handling one mention changes the file and produces the line exactly as `Step` does. |
| BotLoop.Bot.HandleOther | bot.js:87-89 | The duplicate guard on a freshly read cursor, then the reply, as `Step`. |
| BotLoop.Bot.ReplyTo | bot.js:91-119 | Posting the filled-in reply and classifying its outcome, as `Step`. The cursor is saved unless the answer was 429. |
| DispatchProperties.SelfMentionSetsCursor | bot.js:82-85 | A self-authored mention gets no reply, and the cursor becomes its id whatever it was before. |
| DispatchProperties.GuardSkipsSeen | bot.js:88-89 | A mention from someone else is skipped exactly when the cursor is at or above its id; a skip writes nothing. With no cursor, a reply is always attempted. |
| DispatchProperties.ReplyResolvesOrStops | bot.js:91-119 | A mention that passes the guard gets exactly one reply, addressed to it, with the template filled with its author's handle. On 429 the cycle stops with the cursor kept. Otherwise the cursor becomes the mention's id, strictly above the old one. |
| DispatchProperties.UnparsableCursorStops | bot.js:89 | A stored cursor that `BigInt` rejects ends the cycle, through the outer `catch`, at the first mention from someone else, with nothing written. |
| DispatchProperties.RunFollowsBatch | bot.js:77-85 | The batch is handled in order, one line per mention reached. Every reply call is addressed to the mention of its line. A self-authored mention never gets a reply. |
| DispatchProperties.RunStopsOnlyAtEnd | bot.js:107-110 | Only the last line of a batch's trace can stop it. |
| DispatchProperties.RunCutShortStops | bot.js:107-110 | A batch that leaves mentions unreached ends with a line that stopped it. |
| DispatchProperties.RunSplit | bot.js:77-120 | A batch is a prefix that does not stop, followed by the rest, run from where the prefix left the cursor. |
| DispatchProperties.RateLimitStopsBatch | bot.js:107-110 | A 429 at mention `k` ends the batch there, with the cursor as it was before `k`. The trace ends with that mention's `AbortedRateLimited` line, and no later mention is reached. |
| DispatchProperties.RunNeverGoesBack | bot.js:87-89 | If self-authored mentions do not move the cursor back, a batch never leaves the cursor behind where it began, and every reply call is for a mention above the starting cursor. |
| DispatchProperties.AscendingBatchAdvances | bot.js:74-75 | Take a batch delivered newest first whose self-authored mentions lie above the cursor, while mentions from others may lie at or below it. Run in reverse, it has no self-authored mention that moves the cursor back. |
| DispatchProperties.AllAnswered | bot.js:77-120 | The trace of a fully answered batch has one `Replied` line per mention, in order. |
| DispatchProperties.EveryReplyPosted | bot.js:77-120 | If every reply to an ascending batch from others above the cursor goes through, each mention is answered in turn and the cursor ends at the newest one. |
| DispatchProperties.StepKeepsRepliedAtMostOnce | bot.js:87-119 | One mention keeps the no-duplicate invariant between cursor and log. Its reply call, if any, is for a mention above every one resolved before. |
| DispatchProperties.RunKeepsRepliedAtMostOnce | bot.js:87-119 | A batch keeps the invariant and makes no reply call for an already resolved mention. |
| DispatchProperties.RunKeepsStoreRead | bot.js:88 | The cursor the batch works with is, at every point, what re-reading the file gives. |
| DispatchProperties.CycleKeepsRepliedAtMostOnce | bot.js:45-128 | Take a batch delivered newest first with strictly decreasing ids, whose self-authored mentions lie above the stored cursor. Mentions from others may repeat ones already handled, and the guard at bot.js:87-89 then skips them. A cycle keeps the invariant between the file's cursor and the log of all reply calls. It never replies to a mention resolved in an earlier cycle, including across restarts, provided each cycle finishes before the next begins. |
| DispatchProperties.CycleWithoutMentions | bot.js:61-64 | A failed fetch or an empty batch leaves the file as it was and makes no reply call. |
| DispatchProperties.CycleOrder | bot.js:74-77 | A cycle's trace follows the fetched batch from its last (oldest) element backwards, and each reply call answers the mention of its line. |
| DispatchScenarios.OldestFirst | bot.js:74-77 | With no cursor and every reply going through, a batch fetched as `[m3, m2, m1]` is answered `m1`, `m2`, `m3`, and the cursor ends at `m3`. |
| DispatchScenarios.RateLimitedAtSecond | bot.js:107-110 | If the reply to `m1` goes through and the reply to `m2` is throttled, the cycle ends after `m2` with the cursor at `m1`, and `m3` is never attempted. |
| DispatchScenarios.RetryAfterRateLimit | bot.js:108-109 | The next cycle, starting from the file the throttled cycle left (cursor at `m1`), retries `m2` and then answers `m3`, ending with the cursor at `m3`. |
| CycleOverlap.OverlapRepliesTwice | bot.js:139 | When two cycles overlap, both read the cursor before either saves, so a mention from someone else above the cursor gets two posted replies. The log then resolves its id twice and breaks the at-most-once invariant. |
| CycleOverlap.SequentialRepliesOnce | bot.js:88-89 | When the second cycle starts after the first has finished, the first cycle's save makes the guard skip the mention. There is one reply call, and the invariant is kept. |

## Left out

- Authentication, the API client, `initBot` (the bot's own id is the constant `botId`), `main` and the `setInterval` schedule: only one poll cycle is modelled, and the sequence of cycles is stated as lemmas across `Cycle`.
- Overlapping cycles. Every property across cycles assumes each cycle finishes before the next one starts. The code does not guarantee this: `setInterval` (bot.js:139) does not wait for a pending `pollMentions`. `CycleOverlap` shows only the two-cycle interleaving in which both cycles read the cursor before either saves (see Findings); other interleavings are not modelled.
- The fetch itself: `max_results`, the requested fields, and the `since_id` sent with it. The fetch's result is an input (`FetchResult`). `CycleKeepsRepliedAtMostOnce` assumes two things of the fetch: it returns mentions newest first with strictly decreasing ids, and it returns none of the bot's own mentions at or below the cursor.
- All logging, including the slice of the mention text in the log line: it changes no state.
- A failing write of the cursor file, and other exceptions in the loop: the outer `catch` would end the cycle. The model only covers the throw from `BigInt`.
- JavaScript object keys inherited from `Object.prototype` (such as `__proto__`) in the author map: the map is a plain finite map.
- Mention ids are natural numbers written in canonical decimal. The bot writes the platform's id string unchanged, and `Decimal(id)` is that string when the platform sends canonical decimal.
- A missing username in an author record is modelled as the empty string; both are falsy and give `"friend"`.
- Store: the dispatcher keeps the parsed cursor next to the file text. `RunKeepsStoreRead` and `SavedIsRead` show it is exactly what re-reading the file gives, where the code re-reads the file for every mention.

## Findings

| source | as written | input that shows it | evidently intended | confidence | as-written member | corrected member |
|---|---|---|---|---|---|---|
| bot.js:139 | `setInterval(pollMentions, POLL_INTERVAL_MS)` starts a new cycle even while the previous one is still waiting on `client.v2.tweet` (bot.js:100). Both cycles then pass the guard at bot.js:88-89 for the same mention before either saves at bot.js:119. | A mention from someone else above the cursor, whose reply call takes longer than the poll interval and is then posted. | The next cycle starts only after the previous one has finished, so it reads the cursor the previous one saved and skips the mention. | medium, not executed | CycleOverlap.OverlapRepliesTwice | CycleOverlap.SequentialRepliesOnce |
