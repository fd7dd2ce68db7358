# Calendar assistant bot: a Dafny model of its core

The bot reads a message or a photo on Telegram and asks an assistant
service to extract an event from it. It then sends the event back as an
iCalendar file. This project models the three parts of the bot that hold
its logic, and proves what they promise.

- **The assistant client** (`OpenAI` module, `openai.dfy`):
  - the per-user thread cache, with get-or-create-with-validation and eviction;
  - how the assistant id is resolved;
  - the loop that polls a run until it ends;
  - how the newest message and its first text block are picked;
  - the "first `{` to last `}`" JSON slice;
  - the repair of empty or unreadable start and end times.
- **The calendar encoder** (`Calendar` module, `calendar.dfy`):
  - the fallback to UTC for a zone name that does not resolve;
  - the whole-hour offset compensation, which uses Go's truncating division;
  - the DATE-TIME and DATE texts of sections 3.3.5 and 3.3.4 of RFC 5545;
  - the textual rewrite of an all-day event's `DTSTART:`/`DTEND:` lines to the
    `;VALUE=DATE` form (section 3.2.20 of RFC 5545).
- **The bot's zone handling** (`Telegram` module, `telegram.dfy`):
  - `parseTimezone`, which turns a GMT/UTC offset into an `Etc/GMT±n` name
    with the tz database's inverted sign;
  - `formatTimezoneForDisplay` and the image MIME whitelist;
  - the preference map with its default "UTC";
  - the gate that refuses event messages.

Supporting modules:

- `Time` (`time.dfy`) has timestamps. A timestamp is integer UTC seconds
  plus the fixed offset of the location it is read in. The module also has
  the local clock, the midnight test and the next local midnight.
- `Civil` (`civil.dfy`) converts between day counts and proleptic Gregorian
  dates. It has round-trip proofs in both directions.
- `Text` (`text.dfy`) has decimal digits, `strings.TrimSpace`, ASCII case
  folding, byte search and `strings.Replace`.
- `Wrappers` (`wrappers.dfy`) has `Option`, `Result` and `Outcome`.

Some of the source's dependencies become inputs of the model:

- Every call to the remote assistant service becomes an input. An
  existence probe is a predicate on ids. A creation or listing is its
  result, with `None` when the call failed. The statuses returned by
  successive run fetches are a finite sequence.
- `json.Unmarshal`, `time.Parse` with RFC 3339 and the zone database are
  partial functions passed in. The zone database is `time.LoadLocation`
  followed by the zone's current offset.
- The calendar serializer is a function from the planned event to the
  document text, or to `None` when it fails.
- `time.Now()` is a parameter.

## Model

| member | source | states |
|---|---|---|
| OpenAI.ResolveThread | pkg/openai/client.go:56-88 | A cached thread whose existence probe succeeds is returned and the cache is unchanged. Otherwise a created thread is stored for that user only, and every other user's entry stays as it was. A failed creation returns `ThreadCreateFailed` and leaves the cache exactly as it was, stale entry included. |
| OpenAI.ResolveThenReuse | pkg/openai/client.go:58-87 | A user seen for the first time gets the created thread. Asking again reuses it while the service still knows it. |
| OpenAI.Client.constructor | pkg/openai/client.go:38-53 | The configured assistant id is kept, the assistant name is "Calendar Assistant" and the thread cache starts empty. |
| OpenAI.Client.GetOrCreateThread | pkg/openai/client.go:56-88 | The returned id and the new cache are those of `ResolveThread` on the old cache. |
| OpenAI.EvictThread | pkg/openai/client.go:284-300 | After eviction the user has no entry, and every other user's entry is unchanged. |
| OpenAI.EvictThreadIdempotent | pkg/openai/client.go:284-300 | Clearing twice is clearing once, and clearing an absent user changes nothing. |
| OpenAI.EvictThenResolveCreates | pkg/openai/client.go:62-88 | After a clear, the next request takes the created thread, or fails with `ThreadCreateFailed`. |
| OpenAI.Client.ClearThreadForUser | pkg/openai/client.go:284-300 | Always succeeds, and the cache becomes `EvictThread` of the old cache. |
| OpenAI.AdoptedId | pkg/openai/client.go:113-120 | The id adopted from a listing is "" when no assistant has the name. Otherwise it is the id of the first assistant with that name. |
| OpenAI.FirstNamedIndex | pkg/openai/client.go:113-118 | The index of the first listed assistant with the given name. It is -1 exactly when no assistant has that name. |
| OpenAI.Client.InitializeAssistant | pkg/openai/client.go:91-121 | A configured id the service knows is kept. Otherwise the id is reset to "". A failed listing is an error. After a successful listing, the id of the first assistant named "Calendar Assistant" is adopted, or "" stays with no error when none matches. |
| OpenAI.FirstText | pkg/openai/client.go:345-353 | A non-empty text read from the content blocks is the text of one of its blocks of type "text". |
| OpenAI.FirstTextIsFirstTextBlock | pkg/openai/client.go:345-353 | The text read is that of the first block of type "text". Later blocks are ignored, and the text is "" when no block has that type. |
| OpenAI.FirstTextContent | pkg/openai/client.go:345-353 | The loop over the content blocks returns the first text block's text. |
| OpenAI.ResponseText | pkg/openai/client.go:334-357 | An empty listing is `NoMessages`. A newest message not written by the assistant is `UnexpectedRole` with that role. For a newest message from the assistant, the result is its first text block's text, or `NoTextContent` when that text is empty. |
| OpenAI.EmptyFirstTextBlockFails | pkg/openai/client.go:345-357 | An empty first text block is an error even when a later text block has text. |
| OpenAI.SliceJson | pkg/openai/client.go:375-384 | When the first `{` lies before the last `}`, the result starts with `{` and ends with `}`. Otherwise the text is unchanged. |
| OpenAI.SliceJsonOfWrapped | pkg/openai/client.go:375-384 | An object with no `{` before it and no `}` after it is cut out exactly, whatever prose surrounds it. |
| OpenAI.SliceJsonSplits | pkg/openai/client.go:375-384 | A reply with markers is the slice wrapped between a prefix free of `{` and a suffix free of `}`. |
| OpenAI.SliceJsonIdempotent | pkg/openai/client.go:375-384 | Slicing a slice changes nothing. |
| OpenAI.RepairStart | pkg/openai/client.go:398-414 | A start that parses is kept. An empty start or one that does not parse becomes now. |
| OpenAI.DefaultEndSpec | pkg/openai/client.go:416-429 | The default end is in the start's location. It is one hour after the start. For a start at local midnight it is instead the next local midnight, exactly one day later. |
| OpenAI.DefaultEnd | pkg/openai/client.go:416-429 | The default end stays in the start's location, and lies after the start by at most one day. |
| OpenAI.RepairEnd | pkg/openai/client.go:416-448 | An end that parses is kept, even if it is before the start. An empty end or one that does not parse becomes the default end. |
| OpenAI.RepairEvent | pkg/openai/client.go:395-456 | Title, description and location are copied. The end is repaired relative to the already repaired start. |
| OpenAI.ParseEvent | pkg/openai/client.go:375-456 | Fails with `EventParseFailed` exactly when the decoder rejects the sliced text. Otherwise the result is the repaired event of the decoded fields. |
| OpenAI.EmptyTimesReply | pkg/openai/client.go:334-456 | Given prose around an object whose two times are empty, the event starts now. It ends an hour later, or a day later when now is a midnight. |
| OpenAI.CompletionResult | pkg/openai/client.go:320-456 | A failed listing is `MessageListFailed`, and an error picking the reply text is passed on. The result is an event exactly when the listing, the reply text and the decoding of its JSON slice all succeed, and the event is then the repaired decoded one. A reply text whose JSON slice does not decode is `EventParseFailed`. |
| OpenAI.IsDecisiveStatus | pkg/openai/client.go:319-464 | The five statuses the switch ends the loop on: "completed", "failed", "cancelled", "expired" and "requires_action". |
| OpenAI.KeepsPolling | pkg/openai/client.go:465-467 | A successful fetch with any other status sends the loop round again. |
| OpenAI.PollVerdict | pkg/openai/client.go:319-464 | Only "completed" can succeed, and then with the completion's result. "failed", "cancelled" and "expired" give `RunFailed` naming the status. "requires_action" gives `RunRequiresAction`, and a failed fetch gives `RunFetchFailed`. |
| OpenAI.HandleCompletion | pkg/openai/client.go:320-456 | The completed branch follows `CompletionResult` step for step: listing failure, empty listing, role check, first text block, then parsing. |
| OpenAI.PollForCompletion | pkg/openai/client.go:303-470 | The first poll whose status is not a waiting status decides the result, through `PollVerdict`, and the count of polls is its position. The loop is still polling exactly when every observed status is a waiting one. |
| Time.IsMidnightIffWholeDay | pkg/calendar/ics.go:74 | The test hour = minute = second = 0 holds exactly when the local seconds are a whole number of days. |
| Time.NextLocalMidnight | pkg/openai/client.go:424-427 | `time.Date(y, m, d+1, 0, 0, 0, 0, loc)`: day `d+1` of the local date, at 0:00 in the same location. |
| Time.NextLocalMidnightSpec | pkg/openai/client.go:424-427 | `time.Date(y, m, d+1, 0, 0, 0, 0, loc)` is a midnight in the same location, on the next local day, strictly after the time and at most a day later. From a midnight it is exactly a day later. |
| Civil.DaysFromCivilRoundTrip | pkg/calendar/ics.go:78-79 | Converting a day count to a calendar date and back gives the same day count. |
| Civil.CivilFromDaysRoundTrip | pkg/calendar/ics.go:78-79 | Converting a valid date to a day count and back gives the same date. |
| Civil.CivilFromDaysValid | pkg/calendar/ics.go:78-79 | Every day count names a real date: a month from 1 to 12, and a day within that month's length, February 29 only in leap years. |
| Civil.CivilFromDaysInjective | pkg/calendar/ics.go:78-79 | Different day counts give different dates. |
| Civil.DaysFromCivilNextDay | pkg/openai/client.go:424-427 | Day `d+1` of a month is the day after day `d`, even past the month's end, the way `time.Date` normalizes it. |
| Text.TrimSpaceIsInfix | pkg/telegram/bot.go:538 | The trimmed text sits in the input right after the leading white space. Only white space lies before and after it, and it neither starts nor ends with white space. |
| Text.ReplaceAllAbsent | pkg/calendar/ics.go:80 | Replacing a pattern that does not occur returns the text unchanged. |
| Text.ReplaceAllFirst | pkg/calendar/ics.go:80 | Text before the first occurrence is kept, that occurrence becomes the replacement, and the scan resumes right after it. |
| Text.ParseNatToString | pkg/telegram/bot.go:583 | Reading back the decimal digits that `%d` writes for a natural number gives that number. |
| Calendar.OffsetHours | pkg/calendar/ics.go:34-35 | The whole hours of the offset, truncated toward zero. The leftover has the offset's sign and is under an hour. |
| Calendar.OffsetHoursUnique | pkg/calendar/ics.go:35 | No other count of hours has those two properties. |
| Calendar.OffsetHoursExamples | pkg/calendar/ics.go:35 | -3:30 gives -3, +5:30 and +5:45 give +5, and -9:30 gives -9. |
| Calendar.PlanIcs | pkg/calendar/ics.go:20-62 | An unknown zone name gives "UTC", offset 0 and unshifted times. A known zone keeps its name and its truncated hours. Both times move back by exactly those hours and stay in their own locations. |
| Calendar.PlanKeepsDuration | pkg/calendar/ics.go:42-43 | Start and end move together, so the event keeps its duration. |
| Calendar.UnknownZoneFallsBack | pkg/calendar/ics.go:21-27 | An unknown zone name changes nothing but the display name "UTC", and never causes an error. |
| Calendar.FormatYear | pkg/calendar/ics.go:78 | Years 0 to 9999 are four zero-padded digits. Years before year 0 start with a minus sign, and no year is shorter than four characters. |
| Calendar.FormatDateTimeRoundTrip | pkg/calendar/ics.go:78 | For four-digit years, the DATE-TIME text reads back as the local clock it was written from. |
| Calendar.FormatDateTimeInjective | pkg/calendar/ics.go:78 | Different local clock readings give different DATE-TIME texts. |
| Calendar.FormatDateRoundTrip | pkg/calendar/ics.go:79 | For four-digit years, the DATE text reads back as the local day it was written from. |
| Calendar.FormatDateIsPrefix | pkg/calendar/ics.go:78-79 | The DATE text is the DATE-TIME text up to the `T`, which is its first eight characters for four-digit years. |
| Calendar.RewriteAllDay | pkg/calendar/ics.go:73-92 | A start that is not a local midnight leaves the document exactly as written. |
| Calendar.GenerateIcs | pkg/calendar/ics.go:15-97 | Fails exactly when the serializer fails. On success the result is the all-day rewrite of the serialized document, so every rewrite lemma below speaks for it; a start that is not a local midnight leaves the document exactly as written. |
| Calendar.GenerateIcsAllDay | pkg/calendar/ics.go:15-92 | For a midnight start and end (four-digit years) whose serialized document is the DATE-TIME start and end lines, each ended by CRLF, the generated calendar holds the two DATE lines with the line breaks kept. |
| Calendar.EndRewrittenOnlyWithStart | pkg/calendar/ics.go:74-92 | With a midnight start and a timed end, a document holding the start's DATE-TIME line once and the end's DATE-TIME line after it gets the start line in DATE form, while the end line and all other text stay as written. |
| Calendar.RewriteWithoutMatchesIsIdentity | pkg/calendar/ics.go:77-88 | A document without the shifted times' DATE-TIME lines comes back unchanged. |
| Calendar.RewriteChangesOnlyTheStartLine | pkg/calendar/ics.go:74-88 | A single `DTSTART:` line is replaced by its `DTSTART;VALUE=DATE:` form, and the text around it is unchanged. |
| Calendar.AllDayDateOfShiftedStart | pkg/calendar/ics.go:78-79 | For a midnight start, the DATE written is the previous day in a zone east of UTC. It is the same day in UTC and west of it. |
| Calendar.RewriteStartAndEndLines | pkg/calendar/ics.go:74-92 | With a midnight start and end and four-digit years, a document of the DATE-TIME start line and the DATE-TIME end line, each ended by CRLF, comes back with both lines in DATE form and the line breaks kept. |
| Calendar.UtcAllDayExample | pkg/calendar/ics.go:20-62 | For 2025-06-01 to 2025-06-02 in UTC, the plan keeps the zone and both times. The DATE-TIME texts are `DTSTART:20250601T000000Z` and `DTEND:20250602T000000Z`, and the DATE texts `DTSTART;VALUE=DATE:20250601` and `DTEND;VALUE=DATE:20250602`. |
| Calendar.UtcAllDayDocument | pkg/calendar/ics.go:74-92 | For the same event both times are midnights, and the document `DTSTART:20250601T000000Z` CRLF `DTEND:20250602T000000Z` CRLF is rewritten to `DTSTART;VALUE=DATE:20250601` CRLF `DTEND;VALUE=DATE:20250602` CRLF. |
| Calendar.UtcAllDayIcs | pkg/calendar/ics.go:15-92 | When the serializer writes `DTSTART:20250601T000000Z` CRLF `DTEND:20250602T000000Z` CRLF for that event, the generated calendar is `DTSTART;VALUE=DATE:20250601` CRLF `DTEND;VALUE=DATE:20250602` CRLF. |
| Calendar.EastZoneAllDayExample | pkg/calendar/ics.go:78-79 | At +3 hours, the same start is written `DTSTART:20250531T210000Z`, and in DATE form `DTSTART;VALUE=DATE:20250531`. |
| Telegram.SpanRegexSpaces | pkg/telegram/bot.go:546 | Greedy `\s*` consumes white space only and stops at the first other character. |
| Telegram.MatchOffset | pkg/telegram/bot.go:546-547 | A match is a valid prefix, sign and digits that spell the input exactly. |
| Telegram.MatchOffsetComplete | pkg/telegram/bot.go:546-547 | Every text the pattern admits is matched, into the pieces it was built from. |
| Telegram.EtcName | pkg/telegram/bot.go:576-583 | The name is "Etc/GMT", the inverted sign, then the decimal hours. |
| Telegram.ParseTimezone | pkg/telegram/bot.go:530-587 | A name the zone database accepts is returned as typed, before trimming. Otherwise "GMT" or "UTC" alone, in any letter case, gives "UTC". A trimmed text matching the offset form gives the result of `OffsetName` for its pieces. Anything else is `UnknownFormat`. |
| Telegram.OffsetName | pkg/telegram/bot.go:549-584 | More than 14 hours is refused before rounding, and 60 minutes or more is refused. 30 to 59 minutes round the hours up, and the sign is inverted. |
| Telegram.ParseTimezoneOffset | pkg/telegram/bot.go:537-584 | An offset form the zone database does not know, possibly surrounded by white space, is handled by the offset rule. |
| Telegram.RoundsPastLimit | pkg/telegram/bot.go:555-571 | "GMT+14:30" gives "Etc/GMT-15". |
| Telegram.HalfHourWest | pkg/telegram/bot.go:560-583 | "UTC-5:30" gives "Etc/GMT+6". |
| Telegram.FifteenHoursRefused | pkg/telegram/bot.go:555-557 | "GMT+15" is refused. |
| Telegram.FormatTimezoneForDisplay | pkg/telegram/bot.go:590-610 | A name not starting with "Etc/GMT" is shown as it is, and "Etc/GMT" alone is shown as "GMT+0". A longer "Etc/GMT" name becomes "GMT" followed by the rest, with a leading `+` turned into `-` and a leading `-` into `+`. |
| Telegram.DisplayTurnsSignBack | pkg/telegram/bot.go:599-604 | "Etc/GMT+n" is shown as "GMT-n" and "Etc/GMT-n" as "GMT+n". |
| Telegram.ParseThenDisplay | pkg/telegram/bot.go:530-610 | Take "GMT", a sign and canonical whole hours up to 14, with the zone database not knowing the text. Showing the parsed name gives back the text as typed. |
| Telegram.IsImageMime | pkg/telegram/bot.go:517-527 | True for exactly image/jpeg, image/png, image/gif, image/webp and image/bmp. |
| Telegram.IsImageMimeIsExact | pkg/telegram/bot.go:517-527 | Letter case matters, and other image types are refused. |
| Telegram.StoredTimezone | pkg/telegram/bot.go:105-121 | A known user's stored zone, or "UTC" for a user not seen yet. |
| Telegram.DefaultInsertUnobservable | pkg/telegram/bot.go:110-118 | Storing the default for a new user changes no user's zone. |
| Telegram.SetThenLookup | pkg/telegram/bot.go:124-132 | Setting a user's zone is seen by that user only. |
| Telegram.Preferences.constructor | pkg/telegram/bot.go:50 | The preference map starts empty. |
| Telegram.Preferences.GetUserPreferences | pkg/telegram/bot.go:105-121 | Returns the stored zone. For a new user it stores and returns "UTC", and otherwise leaves the map unchanged. |
| Telegram.Preferences.SetUserTimezone | pkg/telegram/bot.go:124-132 | Sets this user's zone and no other, and records that the user chose one. |
| Telegram.RefusesEventAsWritten | pkg/telegram/bot.go:275 | The gate as written: a non-command message is refused when the stored zone is "UTC". |
| Telegram.UtcChoiceLocksOut | pkg/telegram/bot.go:275 | "/timezone UTC" is stored as "UTC", after which that user's event messages are refused under the rule as written. |
| Telegram.GmtChoiceLocksOut | pkg/telegram/bot.go:275 | The same holds for "/timezone gmt". |
| Telegram.GateAgreement | pkg/telegram/bot.go:273-276 | The corrected gate refuses only where the written one does. The two differ only for a user who chose a zone that is stored as "UTC". |
| Telegram.Preferences.AcceptsAfterChoice | pkg/telegram/bot.go:228-240 | After any accepted `/timezone` choice, "UTC" included, the corrected gate no longer refuses that user. |
| Telegram.IsAllDay | pkg/telegram/bot.go:427 | The reply labels an event all-day when its start is at 0:00:00 in the start's own location. |
| Telegram.AllDayLabelMatchesEncoder | pkg/telegram/bot.go:427 | An event the bot does not label all-day is never rewritten to DATE form by the encoder. |

## Left out

- Remote calls to the assistant service are not executed. This covers threads, messages, runs, files and assistants. They appear only through their results, which are passed in.
- The orchestration in `ExtractEventFromText` and `ExtractEventFromImage` is not modelled. It builds the prompt, posts the message and starts the run, all remote calls with no logic of their own.
- The temporary-file staging of an image upload is left out. It is file-system I/O.
- `formatCurrentDate` and the 1-second sleep between polls are left out. They need a clock.
- The polling loop has no bound in the source. `OpenAI.PollForCompletion` runs over the finite sequence of statuses observed so far, and reports `StillPolling` when they are all waiting statuses.
- Only the first page of the assistant listing is seen, as in the source.
- `json.Unmarshal`, `time.Parse` with RFC 3339 and `time.LoadLocation` are partial functions passed in. Daylight-saving changes are not modelled: a zone has one offset, the one it has now.
- Go's substitution of the Local zone for a parsed offset equal to Local's is not modelled, because the model has no Local zone.
- Nanoseconds are not kept: the midnight tests look only at hours, minutes and seconds, as the source does.
- The iCalendar serializer is passed in. Property order, line folding, UID, CREATED, DTSTAMP, LAST-MODIFIED, METHOD and PRODID come from it and the clock.
- `strings.Replace` and the index searches work on bytes in the source and on characters here. The patterns are ASCII, so the results agree.
- Calendar.ParseDateTime: refuses second 60. It reads back only what `FormatDateTime` writes, and that never writes a leap second.
- Calendar.FormatDateTimeRoundTrip: stated for years 0 to 9999 only. Outside that range, Go writes a sign or a fifth digit and the fixed-width reading does not apply.
- Locks, the goroutine per message and races between requests of the same user are left out. The model is sequential.
- The Telegram transport is left out: sending, keyboards, help and welcome texts, file download, command setup and the admin check.
- `cmd/bot/main.go` and `pkg/config` are not part of this model. They are process start-up and environment reading.
- Logging is left out.
- Telegram.Preferences.SetUserTimezone: also records the user in `chosen`, which the source does not keep. Only the corrected gate reads it; `timezones` evolves exactly as in the source.

## Findings

| source | as written | input that shows it | evidently intended | confidence | as-written member | corrected member |
|---|---|---|---|---|---|---|
| pkg/telegram/bot.go:275 | A non-command message is refused while the stored zone is exactly "UTC". "UTC" is also the default for users who never chose a zone. | "/timezone UTC" (or "/timezone gmt"), then any event message from the same user | Refuse only users who have not set a zone yet, as the comment on the next line says. A user who chose UTC is refused on every event message until they choose a zone stored under another name. | medium, not executed | Telegram.UtcChoiceLocksOut | Telegram.Preferences.AcceptsAfterChoice |
