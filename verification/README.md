# Qeepe Meets, modelled in Dafny

Qeepe Meets is a Telegram bot that books client meetings for a sales team. A user walks a
button-driven dialog: client, date, time, manager, comment, then confirmation. On confirmation
the bot creates a Google Calendar event. It then appends a row to the `Meetings` worksheet of
a Google spreadsheet, the ledger. Meetings can later be moved to a new date or time, renamed,
re-commented or deleted, from buttons under the bot's messages. Two scheduled scripts report
on the day:

- the daily report sends one card per meeting the bot created, each with edit and delete buttons;
- the morning digest sends one message that groups the day's events by manager.

The model covers five parts:

- **the calendar description codec** (`calendar_service.dfy`). The description of every event
  the bot creates is a line-oriented text: `source`, `manager_id`, `manager_name` and `client`
  lines, then the comment inside a `comment<<<` / `>>>comment` block. The module has the
  encoder, the decoder (a loop over the lines, with a legacy `comment:` form), the patch
  `update_meeting_event` builds, and the listing filter the reports use;
- **the spreadsheet side** (`managers_repo.dfy`). It reads the `Managers` worksheet with
  header aliases. The `Meetings` ledger is a class whose grid the operations update in place:
  provisioning its header row, appending a meeting, finding one by event id, patching its
  cells, and listing a day's meetings sorted by time;
- **the bot** (`bot_input.dfy`, `bot.dfy`). `bot_input.dfy` holds the pure helpers: the
  date and time parsers, `build_dt_from_inputs`, who wrote a message, whether it belongs to
  the meetings thread, and the manager keyboard with the payload it carries. `bot.dfy` holds
  the dialog itself: a class whose per-user sessions (`STATE`) the callback and message
  handlers update. Every call to the calendar or the spreadsheets is appended to a trace
  with its outcome, and every message sent is recorded by kind;
- **the daily report** (`run_daily.dfy`): the filter, the stable sort by start, and the cards
  as the script builds them, with the corrected card of the finding below beside them;
- **the morning digest** (`run_morning_digest.dfy`): the manager extraction (a handle in the
  summary, else a `Менеджер:` line in the description), the grouping, and the section order.

Python's own behaviour that the code relies on is spelled out in shared modules:

- `text.dfy`: `strip`, `lower`, `split`, `join`, `splitlines`, `int()` and `str()`;
- `sorting.dfy`: the stable `sort(key=...)` on string keys;
- `datetimes.dfy`: `datetime` validity, `+ timedelta(minutes=60)`, `isoformat()`;
- `html.dfy`: `escape_html`.

Answers from the outside world are parameters. This covers the clock, the configuration, and
whether a calendar or spreadsheet call succeeded or raised. A Python exception that escapes a
handler is modelled as an abort: the handler returns `raised`, and the state is as it was at
the raise.

## Model

| member | source | states |
|---|---|---|
| `CalendarService.RoundTrip` | src/calendar/calendar_service.py:39-134 | Decoding a description the encoder built gives back the source tag, the manager id as an integer, the manager name, the client, and the trimmed comment (absent when empty), provided the name and client are single-line and no comment line trims to a block marker |
| `CalendarService.LinesRoundTrip` | src/calendar/calendar_service.py:54-66 | The decoder's loop over the encoder's lines (before joining) yields exactly those fields |
| `CalendarService.JoinedLines` | src/calendar/calendar_service.py:68 | Lines free of line breaks, joined with `\n`, are split back into the same lines after newline normalisation |
| `CalendarService.BlockScan` | src/calendar/calendar_service.py:62-66 | A `comment<<<` block around the `splitlines()` of a trimmed, non-empty comment stores exactly that comment and changes no other field |
| `CalendarService.ParseQeepeDescription` | src/calendar/calendar_service.py:71-134 | The decoding loop computes the decoder's fold over the lines; in its result only `manager_id` is an integer, and it is one whenever present |
| `CalendarService.ScanLine` | src/calendar/calendar_service.py:100-124 | One turn of the decoding loop is the decoder's step: a marker opens or closes the block, a block line is collected, and a `comment:` or `key: value` line stores its trimmed value as text |
| `CalendarService.ScanAppend` | src/calendar/calendar_service.py:100-125 | The decoder is a left fold over the lines: scanning `a + b` is scanning `b` from the state `a` leaves |
| `CalendarService.ScanInBlock` | src/calendar/calendar_service.py:113-115 | Inside an open block, lines that do not trim to a marker are collected verbatim and nothing else changes |
| `CalendarService.UnclosedBlock` | src/calendar/calendar_service.py:103-115 | An opening marker with no closing marker after it sets no comment: the fields are those of the lines before it |
| `CalendarService.LegacyComment` | src/calendar/calendar_service.py:117-120 | Outside a block, a line trimming to `comment: …` sets the comment to the trimmed rest, replacing any earlier one |
| `CalendarService.KeyValueLine` | src/calendar/calendar_service.py:93-125 | Outside a block, a `key: value` line with a word key stores the trimmed value under the key, overwriting an earlier value; unknown keys are kept |
| `CalendarService.OtherLine` | src/calendar/calendar_service.py:100-125 | A line that is no marker, no legacy comment and no `key: value` changes nothing |
| `CalendarService.Coerce` | src/calendar/calendar_service.py:127-132 | The type coercion keeps every key, leaves every value but `manager_id` alone, and turns a present `manager_id` into an integer |
| `CalendarService.CoerceUpdate` | src/calendar/calendar_service.py:127-132 | The coercion commutes with storing any key other than `manager_id` |
| `CalendarService.ParseNumbers` | src/calendar/calendar_service.py:127-134 | After decoding, `manager_id` and only `manager_id` holds an integer |
| `CalendarService.ManagerIdFallback` | src/calendar/calendar_service.py:128-132 | A blank `manager_id`, or one that is not an integer, decodes as 0 |
| `CalendarService.TrimmedBreaks` | src/calendar/calendar_service.py:61 | Trimming keeps a text free of line breaks other than `\n`, so the trimmed comment stays block-safe |
| `CalendarService.CreateEventBody` | src/calendar/calendar_service.py:199-209 | The created event's summary is `Встреча: ` and the client, its start and end are the given ones, and its description is the encoder's |
| `CalendarService.CreatedEventTagged` | src/calendar/calendar_service.py:199-206 | An event created with a single-line client and manager name and a comment that cannot close its block decodes with `source` equal to `qeepe_meets`, so the source filter of the listing keeps it |
| `CalendarService.UpdateMeetingEvent` | src/calendar/calendar_service.py:223-295 | The patch holds exactly the given start and end; the given summary, else `Встреча: <client>`; the given description, else a rebuilt one when any of client, manager or comment is given, else none. A rebuild reads the current description, and that read failing makes the update fail before any patch is built. No argument at all means no write |
| `CalendarService.RebuildKeepsFields` | src/calendar/calendar_service.py:264-284 | Rebuilding the description of a meeting the bot created keeps every field that was not given and replaces exactly the given ones |
| `CalendarService.DecodedFields` | src/calendar/calendar_service.py:266-272 | Read back the way `update_meeting_event` reads it, a decoded description gives the encoded manager id, name, client and trimmed comment |
| `CalendarService.ListQeepeMeetingsForDate` | src/calendar/calendar_service.py:333-349 | The listing loop computes the normalised events kept by the source filter, in input order |
| `CalendarService.ListedExactly` | src/calendar/calendar_service.py:342-347 | With the filter on, exactly the events whose trimmed decoded `source` is `qeepe_meets` are kept; with it off, every event is kept |
| `ManagersRepo.NormIdempotent` | src/sheets/managers_repo.py:22-24 | Header normalisation is idempotent |
| `ManagersRepo.NormShape` | src/sheets/managers_repo.py:22-24 | A normalised header holds no white space and no upper-case letter |
| `ManagersRepo.IndexOf` | src/sheets/managers_repo.py:63 | `list.index` returns the first position holding the value |
| `ManagersRepo.FirstAliasFound` | src/sheets/managers_repo.py:61-74 | No column is found exactly when no alias occurs among the normalised headers; a found column holds an alias |
| `ManagersRepo.FirstAliasWins` | src/sheets/managers_repo.py:61-74 | The first alias in alias order that occurs wins, at its first column, whatever later aliases occur |
| `ManagersRepo.FirstAlias` | src/sheets/managers_repo.py:61-74 | A column found through the aliases is one of the header columns |
| `ManagersRepo.NormAll` | src/sheets/managers_repo.py:57 | One normalised header per header |
| `ManagersRepo.GetManagers` | src/sheets/managers_repo.py:48-103 | The reading loop computes `get_managers` on the grid: the managers of the data rows, or an error |
| `ManagersRepo.ReadManagers` | src/sheets/managers_repo.py:79-103 | The row loop computes the managers of the data rows in row order |
| `ManagersRepo.ManagersOutcome` | src/sheets/managers_repo.py:52-77 | A grid with fewer than two rows has no managers; otherwise it is an error exactly when no id alias or no name alias is among the headers |
| `ManagersRepo.ManagersOfAppend` | src/sheets/managers_repo.py:80-101 | Rows are read independently: the managers of two blocks of rows are concatenated |
| `ManagersRepo.ManagersOfEntries` | src/sheets/managers_repo.py:80-101 | Each row yields at most one manager, with trimmed fields and a non-empty id or name |
| `ManagersRepo.ManagersOfRow` | src/sheets/managers_repo.py:81-101 | A row with a non-blank id or name yields its trimmed cells, an absent cell or username column giving "" |
| `ManagersRepo.ProvisionedUsable` | src/sheets/managers_repo.py:132-160 | The header row written to an empty sheet passes the header check, so provisioning a second time changes nothing |
| `ManagersRepo.HeadersPass` | src/sheets/managers_repo.py:151-153 | The ledger's own header row passes its header check |
| `ManagersRepo.HeadersDistinct` | src/sheets/managers_repo.py:112-129 | The sixteen ledger headers are pairwise distinct |
| `ManagersRepo.MeetingRow` | src/sheets/managers_repo.py:186-203 | The appended row has one cell per ledger header |
| `ManagersRepo.RecordOf` | src/sheets/managers_repo.py:232-234 | A record read back has exactly the headers as keys |
| `ManagersRepo.RecordOfAt` | src/sheets/managers_repo.py:232-234 | A header occurring once maps to its own column's cell, "" past the end of the row |
| `ManagersRepo.BuildRecord` | src/sheets/managers_repo.py:232-234 | The record-building loop computes the header-to-cell record |
| `ManagersRepo.MeetingRecord` | src/sheets/managers_repo.py:186-203 | The appended row read back through the headers gives every cell under its own header |
| `ManagersRepo.MeetingRowIds` | src/sheets/managers_repo.py:188-199 | The creator, chat and manager id cells are numerals that parse back to the ids |
| `ManagersRepo.MeetingRowThread` | src/sheets/managers_repo.py:191 | No thread, or thread 0, gives a blank `thread_id` cell; any other thread parses back |
| `ManagersRepo.MeetingRowStatus` | src/sheets/managers_repo.py:202 | The status cell is never blank: a blank status becomes `created` |
| `ManagersRepo.FirstMatch` | src/sheets/managers_repo.py:262-271 | The first data row whose trimmed cell in the column is the key: it matches and no earlier row does; None when no row matches |
| `ManagersRepo.FindRow` | src/sheets/managers_repo.py:262-269 | The search loop finds the first matching row |
| `ManagersRepo.FirstMatchAt` | src/sheets/managers_repo.py:262-269 | A matching row that no earlier row matches is the one found |
| `ManagersRepo.FirstMatchNone` | src/sheets/managers_repo.py:271 | Without a matching row nothing is found |
| `ManagersRepo.TargetRow` | src/sheets/managers_repo.py:293-297 | The target of an update is a data row of the grid, never the header |
| `ManagersRepo.AppendedFound` | src/sheets/managers_repo.py:262-269 | A row appended with an event id no earlier row carries is found by that id |
| `ManagersRepo.AppendThenLookup` | src/sheets/managers_repo.py:244-271 | On a ledger whose headers passed the check, a meeting appended and then looked up by its event id is found with every argument in its column, unless an earlier row carries that id |
| `ManagersRepo.HeaderColumn` | src/sheets/managers_repo.py:221-223 | In a ledger that passed the check, each header is found at its own position, whatever columns follow |
| `ManagersRepo.EventIdColumn` | src/sheets/managers_repo.py:258 | In such a ledger, `event_id` is column 14 and `date` is column 6 |
| `ManagersRepo.SetCell` | src/sheets/managers_repo.py:307 | Writing a cell sets that cell, keeps every other one, and extends a short row with blanks |
| `ManagersRepo.PatchRowKeeps` | src/sheets/managers_repo.py:302-307 | A cell that no update names keeps its value |
| `ManagersRepo.PatchRowSets` | src/sheets/managers_repo.py:302-307 | A column named by updates holds the value of the last update that names it |
| `ManagersRepo.PatchRow` | src/sheets/managers_repo.py:302-307 | Applying updates never shortens a row |
| `ManagersRepo.PatchSheet` | src/sheets/managers_repo.py:274-309 | An update changes at most the target row; the grid keeps its number of rows |
| `ManagersRepo.PatchSheetCells` | src/sheets/managers_repo.py:293-307 | In the target row, unnamed cells keep their values and each named cell holds the last update's value |
| `ManagersRepo.MeetingsForDateSorted` | src/sheets/managers_repo.py:207-242 | The listing holds exactly the records of the rows whose trimmed date cell is the date, none twice, ordered by trimmed time, with equal times in sheet order |
| `ManagersRepo.DateRecordsAppend` | src/sheets/managers_repo.py:228-235 | The date filter works row by row: it distributes over concatenation |
| `ManagersRepo.SelectByDate` | src/sheets/managers_repo.py:227-235 | The filtering loop computes the records of the matching rows in row order |
| `ManagersRepo.CheckHeaders` | src/sheets/managers_repo.py:151-153 | The header check holds exactly when the normalised first row starts with the normalised ledger headers |
| `ManagersRepo.MeetingsSheet.constructor` | src/sheets/managers_repo.py:138-143 | The worksheet starts with the given grid |
| `ManagersRepo.MeetingsSheet.Ensure` | src/sheets/managers_repo.py:132-160 | An empty sheet gets the header row. A sheet whose first row fails the check is left alone and reported (the source raises). Otherwise nothing changes |
| `ManagersRepo.MeetingsSheet.AppendMeeting` | src/sheets/managers_repo.py:163-204 | After provisioning, exactly one row is appended, holding the arguments in header order |
| `ManagersRepo.MeetingsSheet.GetMeetingByEventId` | src/sheets/managers_repo.py:244-271 | After provisioning, the result is the record of the first row whose trimmed event id is the trimmed key, or none |
| `ManagersRepo.MeetingsSheet.UpdateMeetingByEventId` | src/sheets/managers_repo.py:274-309 | The first matching row is patched in place; the result is true exactly when a row matched; no other row changes |
| `ManagersRepo.MeetingsSheet.PatchTarget` | src/sheets/managers_repo.py:302-307 | The cell-writing loop changes only the target row, into the row with the updates applied in order |
| `ManagersRepo.MeetingsSheet.ListMeetingsForDate` | src/sheets/managers_repo.py:207-242 | After provisioning, the result is the sorted listing of the day's records |
| `BotInput.ParseTimeInput` | src/bot.py:326-331 | An accepted time is the trimmed text itself, five characters long |
| `BotInput.ParseTimeSpec` | src/bot.py:326-331 | A time is accepted exactly when it is two digits, a colon and two digits naming an hour 00-23 and a minute 00-59 |
| `BotInput.ParseDateInput` | src/bot.py:310-323 | An accepted date keeps the typed `DD.MM` and is longer than it |
| `BotInput.ParsedDateValid` | src/bot.py:310-323 | An accepted date is three digit fields naming a real calendar date; its year is the typed one, or the current year when none was typed |
| `BotInput.ParseDateSpec` | src/bot.py:310-323 | A typed date is accepted if and only if, trimmed, it is `DD.MM` or `DD.MM.YYYY` naming a real calendar day, the year defaulting to the current one; what is stored is the trimmed text, with the current year appended when none was typed |
| `BotInput.ParseDateIdempotent` | src/bot.py:310-323 | A date the parser produced is accepted again unchanged |
| `BotInput.FourDigitYear` | src/bot.py:317 | A current year from 1000 to 9999 is written with four digits |
| `BotInput.BuildDt` | src/bot.py:137-140 | A date-time that builds is a valid one |
| `BotInput.ParsedInputsBuild` | src/bot.py:137-140 | A date and a time that both went through their parsers always build the date-time their digits name |
| `BotInput.DateSplit` | src/bot.py:138 | A parsed date splits on its dots into three integers naming a valid date |
| `BotInput.TimeSplit` | src/bot.py:139 | A parsed time splits on its colon into two integers naming a valid time |
| `BotInput.ResolveUserId` | src/bot.py:116-130 | A resolved user id is never 0 |
| `BotInput.ResolvesFirstHuman` | src/bot.py:116-130 | The message is attributed to the first real person among its sender and the sender of the message it answers; there is none exactly when neither is a person |
| `BotInput.InMeetsThreadById` | src/bot.py:91-113 | With the topic configured as a number, a message belongs to the meetings thread exactly when it, or the message it answers, was posted in that topic |
| `BotInput.PairsLayout` | src/bot.py:146-164 | Laying out in pairs loses and reorders nothing; rows hold one or two items, only the last may hold one |
| `BotInput.ManagersKeyboard` | src/bot.py:144-168 | The keyboard loop gives the manager buttons two to a row, then a back row and a cancel row |
| `BotInput.KeyboardListsEveryManager` | src/bot.py:148-164 | The keyboard offers every manager exactly once, in worksheet order |
| `BotInput.ChooseManager` | src/bot.py:526-550 | The chosen manager is shown as its handle when the handle starts with `@`, else by name |
| `BotInput.ChooseManagerButton` | src/bot.py:532-550 | Pressing a manager's button stores what the button was built from (handle, id, label) and shows the `@handle` exactly when the manager has a username, provided no field holds the bar separator |
| `BotInput.ButtonFieldsClean` | src/bot.py:149-159 | Button payload fields are trimmed and free of the bar separator, the id is never empty, and the handle starts with `@` exactly when there is a username |
| `BotInput.ChooseFields` | src/bot.py:532-545 | A payload of a handle, an id and a name separated by bars is read back into those three fields |
| `Bot.CalendarFirstAppend` | src/bot.py:606-640 | Traces that each write the calendar before the ledger still do so when concatenated |
| `Bot.SagaStep` | src/bot.py:606-640 | A calendar write followed by the ledger write that depends on it is calendar-first |
| `Bot.Slot` | src/bot.py:592-593 | The meeting's slot is two valid date-times exactly 60 minutes apart |
| `Bot.ParsedSlot` | src/bot.py:592-593 | A parsed date and time always build a start; the end fails only for a start in the last hour of year 9999 |
| `Bot.EditPlan` | src/bot.py:747-932 | Every write an edit plans goes to the calendar first and has at least one ledger update |
| `Bot.RescheduleKeepsAnHour` | src/bot.py:776-863 | Moving a meeting keeps it one hour long, and the ledger gets the same ISO times as the calendar, with status `created` |
| `Bot.RescheduleKeepsOtherHalf` | src/bot.py:766-863 | A new date keeps the recorded time, and a new time keeps the recorded date |
| `Bot.EditRefusals` | src/bot.py:776-932 | A date or time that does not parse is refused before any write, and a client cannot be blanked. A comment is always written, with `-` clearing it |
| `Bot.EditStepFor` | src/bot.py:461-484 | A field button leads to an edit step or to nothing |
| `Bot.Picked` | src/bot.py:547-550 | Choosing a manager never touches the event under edit |
| `Bot.BookingOrder` | src/bot.py:576-659 | Creating a meeting writes the calendar first, and the ledger only after the calendar succeeded and when the forum chat id is a number. The ledger row names the event the calendar returned, carries the event's ISO times, and is marked `created` |
| `Bot.BookingAnnounced` | src/bot.py:615-658 | The meeting is announced exactly when the calendar event was created, with a warning exactly when the ledger row was not written |
| `Bot.MeetingBot.constructor` | src/bot.py:32 | The bot starts with no sessions, no calls and no messages |
| `Bot.MeetingBot.AskClient` | src/bot.py:215-218 | The user's session is replaced by a fresh one at the client step |
| `Bot.MeetingBot.AskStep` | src/bot.py:221-278 | Only the step changes, and its prompt is sent; without a session the handler raises and nothing changes |
| `Bot.MeetingBot.Put` | src/bot.py:505-550 | One session value is set, nothing else changes |
| `Bot.MeetingBot.AskManager` | src/bot.py:265-267 | The step moves to the manager step, then the managers are read; a failed read raises after the step was set, and a successful one shows the managers two to a row with back and cancel buttons. Without a session it raises before anything |
| `Bot.MeetingBot.ShowConfirm` | src/bot.py:281-306 | The escaped summary is shown and the session moves to the confirm step |
| `Bot.MeetingBot.OnCancel` | src/bot.py:361-364 | The session is dropped whatever its step, and no store is called |
| `Bot.MeetingBot.OnEdit` | src/bot.py:367-403 | The meeting is looked up in the ledger; when found, the session becomes an edit session for it; a missing id, a failed read or a missing meeting leaves the sessions alone |
| `Bot.MeetingBot.OnDelete` | src/bot.py:406-448 | The calendar event is deleted first; only then is the ledger row marked `canceled`, and a failure there only warns. The session ends only when it edits the deleted meeting |
| `Bot.MeetingBot.OnEditField` | src/bot.py:451-484 | With an event under edit, the session moves to the edit step the field names; without one the session ends as expired |
| `Bot.MeetingBot.OnBack` | src/bot.py:487-497 | Back to the client step starts afresh with the client prompt. Back to date or time moves the step and prompts, raising without a session. Back to manager moves the step, reads the managers and shows their keyboard, raising without a session or when the read fails. Any other target changes nothing |
| `Bot.MeetingBot.OnDate` | src/bot.py:499-512 | Today or tomorrow is stored and the time asked; `custom` moves to the typed-date step and asks for it; any other choice changes nothing. Without a session a fresh one starts with the client prompt |
| `Bot.MeetingBot.OnTime` | src/bot.py:514-524 | `custom` moves to the typed-time step and asks for it; anything else is stored unvalidated, the managers read and their keyboard shown, raising exactly when that read fails. Without a session a fresh one starts with the client prompt |
| `Bot.MeetingBot.OnManager` | src/bot.py:526-553 | The chosen manager's four values are stored and the comment asked; without a session a fresh one starts with the client prompt |
| `Bot.MeetingBot.OnComment` | src/bot.py:555-563 | `skip` stores an empty comment and shows the summary; any other choice changes nothing; without a session a fresh one starts with the client prompt |
| `Bot.MeetingBot.CreateMeeting` | src/bot.py:576-659 | An incomplete draft is refused without a call. A draft whose slot does not build raises. Otherwise the meeting is booked, and the session ends only when the calendar event was created |
| `Bot.MeetingBot.Book` | src/bot.py:606-659 | The booking writes the calls and messages of the booking specification, and ends the session exactly when the event was created |
| `Bot.MeetingBot.OnConfirm` | src/bot.py:565-659 | `edit`, or a press without a session, starts over at the client step. `create` refuses missing data, raises on a date-time that does not build, and otherwise books the meeting: calendar first, ledger after, the session dropped once the event exists. An unknown action changes nothing |
| `Bot.MeetingBot.HandleCallback` | src/bot.py:335-659 | A press without a user changes nothing. Cancel drops the session with the cancel message; new and create start a fresh one with the client prompt; a press on a deleted meeting's button only says it is deleted; a payload with none of the handled forms changes nothing |
| `Bot.MeetingBot.EditText` | src/bot.py:747-932 | The state after typed text at an edit step is the one the edit outcome describes: the ledger read first; a failed read keeps the session, a missing meeting ends it; a refusal, a raise or a calendar failure keeps it with its message; a calendar success is followed by the ledger update and ends it |
| `Bot.MeetingBot.Carry` | src/bot.py:776-932 | A refusal keeps the session and sends its message; a write goes to the calendar, and to the ledger only after the calendar succeeded, after which the session ends; the calls and messages of each case are those of the plan outcome |
| `Bot.MeetingBot.HandleText` | src/bot.py:710-932 | The sessions, calls, messages and raise after typed text are those the typed-text outcome gives for the step of the author's session: the client, a parsed date or time, or the comment is stored and the next question asked, bad input refused with its message, an edit step carried out; without a session or at a step waiting for a button nothing happens |
| `Bot.MeetingBot.TypedClient` | src/bot.py:718-721 | The text is stored as the client and the date asked |
| `Bot.MeetingBot.TypedDate` | src/bot.py:723-730 | A date that does not parse is refused and the step stays; otherwise it is stored and the time asked |
| `Bot.MeetingBot.TypedTime` | src/bot.py:732-739 | A time that does not parse is refused and the step stays; otherwise it is stored, the managers read and their keyboard shown, raising exactly when the read fails |
| `Bot.MeetingBot.TypedComment` | src/bot.py:741-744 | The text is stored as the comment and the summary shown |
| `Bot.MeetingBot.HandleMessage` | src/bot.py:663-707 | A group message outside the meetings thread is ignored; one without a real author gets a warning when it has text; an empty one is ignored. A private message with nobody to attribute it to (author, else raw sender) is ignored. Otherwise a start command starts a fresh session, and any other text has the effect of the typed-text outcome for that user |
| `Bot.TypedTextSafe` | src/bot.py:710-932 | Typed text changes no session but its author's, keeps every session well formed, writes the calendar before the ledger, and never starts its calls with a ledger write |
| `Bot.EditTouchesOnlyItsMeeting` | src/bot.py:747-932 | Typed text at an edit step first reads the meeting under edit from the ledger; every call it makes is about that meeting; the only ledger write is the third call, after a successful calendar write, and then the edit session ends |
| `DailyReport.FromLines` | scripts/run_daily.py:64-67 | The looked-up value is trimmed |
| `DailyReport.FirstKeyLineWins` | scripts/run_daily.py:64-66 | The first line that starts, in any letter case, with the key and a colon decides, whatever follows |
| `DailyReport.NoKeyLine` | scripts/run_daily.py:62-67 | Without such a line the value is empty |
| `DailyReport.ExtractFromDescription` | scripts/run_daily.py:61-67 | The value a description gives for a key is trimmed |
| `DailyReport.BuildCardsForToday` | scripts/run_daily.py:103-164 | The two loops and the sort compute the report of the day's events as written, the card comment read with the `comment:` line lookup |
| `DailyReport.FilterOurs` | scripts/run_daily.py:113-120 | The filtering loop keeps the events the filter keeps, in order |
| `DailyReport.MakeCards` | scripts/run_daily.py:128-162 | The card loop gives one card per meeting, the day header on the first, each card built as written |
| `DailyReport.Filtered` | scripts/run_daily.py:113-120 | The filter never keeps more events than were listed |
| `DailyReport.FilteredAppend` | scripts/run_daily.py:113-120 | The filter works event by event: it distributes over concatenation |
| `DailyReport.FilteredExactly` | scripts/run_daily.py:113-120 | Exactly the events not cancelled whose description contains `source: qeepe_meets` are kept |
| `DailyReport.EmptyReport` | scripts/run_daily.py:122-124 | Without meetings the report is one card with the header and no event to act on |
| `DailyReport.MeetingsReport` | scripts/run_daily.py:122-164 | Otherwise there is one card per kept meeting, each naming its trimmed event id, with the header on the first card only. The meetings are a permutation of the kept ones, sorted by start, with equal starts in listed order |
| `DailyReport.TitleOfCreatedEvent` | scripts/run_daily.py:134-136 | The summary the bot gives a meeting, `Встреча: <client>`, shows as the client |
| `DailyReport.SendCards` | scripts/run_daily.py:176-181 | Each card is sent in order, with edit and delete buttons exactly when it names an event |
| `DailyReport.ButtonsNameTheEvent` | scripts/run_daily.py:91-99 | The buttons carry the prefixes the bot dispatches on, followed by the card's event id as the bot trims it |
| `DailyReport.CommentAsWrittenMissesBlock` | scripts/run_daily.py:143 | The card's line lookup never sees the comment the bot stores in a block (see Findings) |
| `DailyReport.CommentAsWritten` | scripts/run_daily.py:143 | The comment as the line lookup reads it is trimmed |
| `DailyReport.CommentLostExample` | scripts/run_daily.py:143 | For a meeting booked with the comment `late`, the card as written shows no comment, while the corrected card shows `late` |
| `DailyReport.CardShowsComment` | scripts/run_daily.py:143 | The corrected card, whose comment is read with the description decoder, is the card as written with the comment the bot stored |
| `DailyReport.DescriptionLinesSplit` | scripts/run_daily.py:64 | `splitlines()` of a built description gives back the encoder's lines |
| `MorningDigest.SearchHandle` | scripts/run_morning_digest.py:66-68 | A captured handle has 5 to 32 handle characters |
| `MorningDigest.SearchFindsFirst` | scripts/run_morning_digest.py:66-68 | The search captures at the leftmost match, at most 32 characters |
| `MorningDigest.SearchNone` | scripts/run_morning_digest.py:66-67 | The search finds nothing exactly when the pattern matches nowhere |
| `MorningDigest.HandleRun` | scripts/run_morning_digest.py:19 | The handle run is the longest prefix of handle characters |
| `MorningDigest.SearchManagerLine` | scripts/run_morning_digest.py:75-77 | A name found on a `Менеджер:` line is trimmed and stays on its line |
| `MorningDigest.NameAfter` | scripts/run_morning_digest.py:20 | The captured name is trimmed and holds no line break |
| `MorningDigest.ExtractManager` | scripts/run_morning_digest.py:54-83 | A manager's grouping key and title coincide and are never empty |
| `MorningDigest.HandleFirst` | scripts/run_morning_digest.py:65-71 | A handle in the summary decides, whatever the description says; the key is the leftmost handle with its `@` |
| `MorningDigest.LabelOnFirstLine` | scripts/run_morning_digest.py:73-81 | Without a handle, a description whose first line is the label in any letter case, a colon and a name groups the event under that name |
| `MorningDigest.NoLabelNoName` | scripts/run_morning_digest.py:75-83 | A description without the label anywhere names no manager |
| `MorningDigest.ItemLine` | scripts/run_morning_digest.py:107 | An event's digest line starts with the bullet |
| `MorningDigest.Keys` | scripts/run_morning_digest.py:111-113 | The managers are listed without repetition |
| `MorningDigest.Collect` | scripts/run_morning_digest.py:96-116 | The grouping loop gives each manager, in order of first appearance, a section under its title with its lines in event order, and puts the lines without a manager aside |
| `MorningDigest.KeysExactly` | scripts/run_morning_digest.py:109-116 | The managers are exactly the keys of the events; a manager not among them has no lines |
| `MorningDigest.EveryEventOnce` | scripts/run_morning_digest.py:99-116 | Every event gives exactly one line, in its manager's section or among the unassigned ones |
| `MorningDigest.SectionsCover` | scripts/run_morning_digest.py:124-128 | Each manager has one section, titled by its key and holding its lines; no section is empty |
| `MorningDigest.SectionsOrdered` | scripts/run_morning_digest.py:121-124 | Handle sections come first, and within each kind titles go by their lower-case form |
| `MorningDigest.UnassignedShown` | scripts/run_morning_digest.py:130-132 | The unassigned section is shown exactly when some event has no manager |
| `MorningDigest.UnassignedExactly` | scripts/run_morning_digest.py:115-116 | Some line is unassigned exactly when some event has no manager |
| `MorningDigest.UnassignedAppend` | scripts/run_morning_digest.py:115-116 | The unassigned lines are collected event by event: they distribute over concatenation |
| `MorningDigest.GroupStep` | scripts/run_morning_digest.py:109-116 | One more event adds its key to the managers when it is new, and its line to the unassigned ones when it has no manager |
| `MorningDigest.SendDigest` | scripts/run_morning_digest.py:86-139 | The message is the digest of the events; the create button comes with it exactly when there are events |
| `Sorting.SortSorted` | scripts/run_daily.py:126 | The stable sort orders by key |
| `Sorting.SortPermutation` | scripts/run_daily.py:126 | The stable sort is a permutation of its input |
| `Sorting.SortStable` | scripts/run_daily.py:126 | Elements with equal keys keep their input order |
| `Sorting.StrLtTotal` | scripts/run_morning_digest.py:121-124 | Any two strings are equal or ordered one way or the other |
| `Sorting.StrLtTransitive` | scripts/run_morning_digest.py:121-124 | String order is transitive |
| `Html.EscapeSinglePass` | src/bot.py:133-134 | The three chained replacements escape each character independently: the `&` of an entity is never escaped again |
| `Html.EscapedHasNoMarkup` | src/bot.py:133-134 | No `<` or `>` survives escaping |
| `Html.UnescapeEscape` | scripts/run_daily.py:56-57 | Escaping loses nothing: reading the entities back gives the original text |
| `Html.EscapeAppend` | src/bot.py:133-134 | Escaping distributes over concatenation |
| `DateTimes.DaysInMonth` | src/bot.py:320 | Every month has 28 to 31 days |
| `DateTimes.AddHour` | src/bot.py:593 | Adding an hour gives a valid date-time exactly 60 minutes later, and fails only in the last hour of year 9999 |
| `DateTimes.IsoFormat` | src/bot.py:632-633 | The ISO form is `YYYY-MM-DDTHH:MM:SS`, nineteen characters |
| `DateTimes.ZeroPadExact` | src/bot.py:632-633 | A number below 10 to the width is padded to exactly the width |
| `Text.StripShape` | src/sheets/managers_repo.py:88-90 | A stripped text is trimmed, is a slice of the input, and is empty exactly when the input is all white space |
| `Text.StripIdempotent` | src/sheets/managers_repo.py:88-90 | Stripping twice is stripping once |
| `Text.RemoveSpaces` | src/sheets/managers_repo.py:24 | Removing white space keeps exactly the other characters |
| `Text.Lower` | scripts/run_daily.py:135 | Lower-casing works character by character and keeps the length |
| `Text.SplitOn` | src/bot.py:138-139 | `split` gives at least one part, and no part holds the separator |
| `Text.SplitLines` | src/calendar/calendar_service.py:65 | No line of `splitlines()` holds a line boundary |
| `Text.ReplaceCrLf` | src/calendar/calendar_service.py:86 | Replacing `\r\n` changes nothing in a text without `\r` |
| `Text.SplitJoin` | src/bot.py:138-139 | Splitting what `join` built gives the parts back when no part holds the separator |
| `Text.JoinSplit` | src/calendar/calendar_service.py:86-87 | Joining what `split` produced restores the text |
| `Text.JoinSplitLines` | src/calendar/calendar_service.py:65-68 | For a text whose only breaks are `\n` and that does not end in one, joining its `splitlines()` with `\n` restores it |
| `Text.SplitLinesJoin` | src/calendar/calendar_service.py:68 | Break-free lines, the last non-empty, joined with `\n` and split with `splitlines()` come back unchanged |
| `Text.ParseIntToString` | src/sheets/managers_repo.py:188-199 | `int(str(n)) == n` |

## Left out

- Telegram I/O (`tg_request`, `tg_send_message`, `tg_answer_callback`, `poll_updates`, the scripts' `main` wiring) is not modelled. Messages are recorded by kind, with the values they show, not as their HTML text; the message texts of the bot's replies are not modelled.
- Google I/O (credentials, `_get_sheet`, `_get_calendar_service`, `get_event`, `delete_event`, `list_events_for_date`) is not modelled. The grids, the current description and the day's events are parameters, and each call's success is an input.
- Clocks and time zones are not modelled: `tz_now`, `today_date_str`, `tomorrow_date_str`, `_now_str` and the current year are inputs. `_ensure_tz`, `_parse_rfc3339`, `_event_time_local` and `fmt_time` are left out. Date-times are naive, and a report card keeps the start as listed.
- `extract_qeepe_fields_from_event` is modelled without its `start_dt`, `end_dt` and `raw` members, which need time-zone parsing.
- `\d`, `isdigit()` and `[0-9]` are ASCII only. `lower()` covers ASCII and the upper-case Cyrillic letters U+0400..U+042F (Ѐ..Я); the other upper-case letters of the Cyrillic block, such as Ѡ U+0460 or Қ U+049A, are left unchanged by the model, where Python lower-cases them. `isalnum()` covers ASCII letters and digits and the letters of the Cyrillic block U+0400..U+04FF (all of it but U+0482..U+0489). Other Unicode digits and letters, Cyrillic Supplement included, are not modelled.
- The 64-byte limit Telegram puts on callback data is not modelled.
- A missing worksheet and an empty one are not distinguished: both get the header row.
- `diag_updates.py` and `config.py` are not part of this model. Configuration values are inputs.
- `BotInput.ParseTimeInput`: its own ensures states only the shape of an accepted time; `ParseTimeSpec` states the full acceptance condition.
- `DailyReport.ExtractFromDescription`: the card's `manager_username` line lookup is kept as written. The encoder never writes that key, so it is always empty for meetings the bot created.
- `MorningDigest.SearchManagerLine`: the lazy `(.+?)\s*$` capture is modelled as the rest of the line, stripped. No other reading of the `(?im)` pattern is claimed.
- `Bot.MeetingBot.HandleCallback`: its contract states the five fixed payloads and the fall-through; the effect of a prefixed payload (`meet:edit:`, `meet:date:` and the rest) is stated only by the handler method it is passed to, not restated here.
- The Meetings and Managers worksheets are modelled as grids of raw strings that return every cell exactly as written. The ledger writes with the `USER_ENTERED` input option (src/sheets/managers_repo.py:147, :204, and `update_cell` at :307), under which the spreadsheet parses what it receives: dates, times and ISO starts may come back as date values in a locale format, numeric ids as numbers, and a client or comment starting with `=` or `+` is evaluated as a formula. None of that parsing is modelled, so `ManagersRepo.AppendThenLookup` and the date and time matching of `ManagersRepo.MeetingsSheet.ListMeetingsForDate` hold for the raw-string grid only.
- `CalendarService.CreatedEventTagged`: proved only for a single-line client and manager name and a comment that cannot close its block. The bot passes the typed client as it is, and a client typed over two lines, `Acme` then `source: x`, adds a `source:` line after the tag that overrides it, so the listing drops that event.

## Findings

| source | as written | input that shows it | evidently intended | confidence | as-written member | corrected member |
|---|---|---|---|---|---|---|
| scripts/run_daily.py:143 | The card reads the comment with a line lookup for `comment:`, but the encoder stores every comment in a `comment<<<` block, so cards never show it | a meeting booked with the comment `late`: its description has the lines `comment<<<`, `late`, `>>>comment` and no `comment:` line | the card shows the comment the bot stored, as the description decoder reads it | not executed | `DailyReport.CommentLostExample` | `DailyReport.CardShowsComment` |
