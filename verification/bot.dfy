/** The bot's dialog: the per-user sessions of `STATE`, driven by button presses
    (`handle_callback`) and typed messages (`handle_message`, `_handle_fsm_text`).
    Calls to the calendar, the Meetings worksheet and the Managers worksheet are recorded
    in a trace together with their outcome, which the handler receives as a parameter;
    the messages sent back are recorded by kind. A Python exception that escapes a
    handler is an abort: the handler stops and everything stays as it was at the raise. */
module Bot {
  import opened Wrappers
  import opened Text
  import opened DateTimes
  import opened Html
  import opened BotInput
  import ManagersRepo
  import Seqs

  /** The steps of the dialog, named after the `step` values the handlers store:
      `client`, `date`, `custom_date`, `time`, `custom_time`, `manager`, `comment`,
      `confirm`, `edit_menu`, `edit_date`, `edit_time`, `edit_client`, `edit_comment`. */
  datatype Step =
    | AtClient | AtDate | AtCustomDate | AtTime | AtCustomTime | AtManager | AtComment | AtConfirm
    | AtEditMenu | AtEditDate | AtEditTime | AtEditClient | AtEditComment
  {
    predicate IsEdit() {
      AtEditDate? || AtEditTime? || AtEditClient? || AtEditComment?
    }
  }

  /** The other keys a session holds. */
  datatype Key =
    | Client | Date | Time | Manager | ManagerPretty | ManagerName | ManagerId | Comment | EditEventId

  /** A user's session: the step it is at and the values collected so far. Every session
      the handlers create has a `step`, so it is never empty. */
  datatype Session = Session(step: Step, fields: map<Key, string>)

  /** `d.get(k) or ""`. */
  function Field(s: Session, k: Key): string {
    if k in s.fields then s.fields[k] else ""
  }

  /** `d.get(k, default)`. */
  function FieldOr(s: Session, k: Key, default: string): string {
    if k in s.fields then s.fields[k] else default
  }

  /** The session with one value set. */
  function Set(s: Session, k: Key, v: string): Session {
    s.(fields := s.fields[k := v])
  }

  /** An edit step knows which event it edits. */
  predicate SessionOk(s: Session) {
    s.step.IsEdit() ==> Strip(Field(s, EditEventId)) != ""
  }

  /** A fresh session at the client step, as `ask_client` stores it. */
  const Fresh := Session(AtClient, map[])

  // ---------------------------------------------------------------- what the bot says

  /** The messages the bot sends, by kind. */
  datatype Reply =
    | PromptClient | PromptDate | PromptCustomDate | PromptTime | PromptCustomTime
    | PromptManager(keyboard: seq<seq<Button>>) | PromptComment
    | ConfirmCard(client: string, date: string, time: string, manager: string, comment: string)
    | AlreadyDeleted | Cancelled | NoEventId | LedgerReadFailed | NotInLedger
    | EditMenu(client: string, date: string, time: string, eventId: string)
    | CalendarDeleteFailed | DeletedNotice | EditSessionExpired
    | PromptEditDate | PromptEditTime | PromptEditClient | PromptEditComment
    | MissingData | CalendarCreateFailed | LedgerWarning | CreatedNotice(eventId: string)
    | NoAuthor | BadDate | BadTime | NoCurrentTime | CalendarUpdateFailed | EmptyClient
    | UpdatedNotice(eventId: string)

  /** The prompt a step setter sends. */
  function Prompt(step: Step): Reply
    requires step != AtManager && step != AtConfirm && step != AtEditMenu
  {
    match step
    case AtClient => PromptClient
    case AtDate => PromptDate
    case AtCustomDate => PromptCustomDate
    case AtTime => PromptTime
    case AtCustomTime => PromptCustomTime
    case AtEditDate => PromptEditDate
    case AtEditTime => PromptEditTime
    case AtEditClient => PromptEditClient
    case AtEditComment => PromptEditComment
    case AtComment => PromptComment
  }

  /** The summary `show_confirm` shows, every value escaped; an absent value shows as a
      dash, and so does an empty comment. */
  function ConfirmOf(s: Session): Reply {
    var manager := if ManagerPretty in s.fields then s.fields[ManagerPretty] else FieldOr(s, Manager, "—");
    var comment := if Field(s, Comment) != "" then Field(s, Comment) else "—";
    ConfirmCard(EscapeHtml(FieldOr(s, Client, "—")), EscapeHtml(FieldOr(s, Date, "—")),
                EscapeHtml(FieldOr(s, Time, "—")), EscapeHtml(manager), EscapeHtml(comment))
  }

  /** The card for the meeting being edited, its values trimmed and escaped. */
  function EditMenuOf(rec: ManagersRepo.Record, eventId: string): Reply {
    EditMenu(EscapeHtml(Strip(RecordField(rec, "client"))), EscapeHtml(Strip(RecordField(rec, "date"))),
             EscapeHtml(Strip(RecordField(rec, "time"))), eventId)
  }

  /** `meeting.get(k) or ""`. */
  function RecordField(rec: ManagersRepo.Record, k: string): string {
    if k in rec then rec[k] else ""
  }

  // ---------------------------------------------------------------- external calls

  /** The calls the handlers make to the stores. */
  datatype Call =
    | ReadManagers
    | CalendarCreate(title: string, start: DateTime, end: DateTime, managerId: int,
                     managerName: string, comment: string)
    | CalendarReschedule(eventId: string, start: DateTime, end: DateTime)
    | CalendarRename(eventId: string, client: string)
    | CalendarComment(eventId: string, comment: string)
    | CalendarDelete(eventId: string)
    | LedgerGet(eventId: string)
    | LedgerAppend(args: ManagersRepo.MeetingArgs)
    | LedgerUpdate(eventId: string, updates: seq<(string, string)>)

  /** A call and whether it succeeded. */
  datatype Done = Done(call: Call, ok: bool)

  predicate IsCalendarWrite(c: Call) {
    c.CalendarCreate? || c.CalendarReschedule? || c.CalendarRename? || c.CalendarComment? || c.CalendarDelete?
  }

  predicate IsLedgerWrite(c: Call) {
    c.LedgerAppend? || c.LedgerUpdate?
  }

  /** The two stores are written calendar first: every ledger write comes right after a
      calendar write that succeeded. */
  predicate CalendarFirst(trace: seq<Done>) {
    forall k | 0 <= k < |trace| && IsLedgerWrite(trace[k].call) ::
      k > 0 && IsCalendarWrite(trace[k - 1].call) && trace[k - 1].ok
  }

  /** Traces that are calendar-first each, the second not starting with a ledger write,
      are calendar-first together. */
  lemma CalendarFirstAppend(a: seq<Done>, b: seq<Done>)
    requires CalendarFirst(a) && CalendarFirst(b)
    requires b != [] ==> !IsLedgerWrite(b[0].call)
    ensures CalendarFirst(a + b)
  {
    forall k | 0 <= k < |a + b| && IsLedgerWrite((a + b)[k].call)
      ensures k > 0 && IsCalendarWrite((a + b)[k - 1].call) && (a + b)[k - 1].ok
    {
      if k >= |a| {
        assert (a + b)[k] == b[k - |a|];
        assert (a + b)[k - 1] == b[k - 1 - |a|];
      }
    }
  }

  /** A calendar write, then the ledger write that follows it when it succeeded. */
  lemma SagaStep(c: Call, w: Call, ok: bool)
    requires IsCalendarWrite(c) && IsLedgerWrite(w)
    ensures CalendarFirst([Done(c, true), Done(w, ok)])
    ensures CalendarFirst([Done(c, false)]) && CalendarFirst([Done(c, true)])
  {
    var t := [Done(c, true), Done(w, ok)];
    assert forall k | 0 <= k < |t| && IsLedgerWrite(t[k].call) :: k == 1;
  }

  /** What the outside world answers: the clock's dates and year, the configuration, and
      the outcome of each call a handler may make. */
  datatype Env = Env(
    today: string, tomorrow: string, year: nat,
    forumChatId: string, threadConfig: string,
    managers: Result<seq<ManagersRepo.Manager>>,
    meeting: Result<Option<ManagersRepo.Record>>,
    created: Result<string>,
    calendarOk: bool, ledgerOk: bool)

  // ---------------------------------------------------------------- creating a meeting

  /** The values `confirm:create` reads from the session, trimmed. */
  datatype Draft = Draft(client: string, date: string, time: string, comment: string,
                         managerId: string, managerName: string, managerPretty: string)

  function DraftOf(s: Session): Draft {
    var name := Strip(Field(s, ManagerName));
    Draft(Strip(Field(s, Client)), Strip(Field(s, Date)), Strip(Field(s, Time)),
          Strip(Field(s, Comment)), Strip(Field(s, ManagerId)), name,
          Strip(if Field(s, ManagerPretty) != "" then Field(s, ManagerPretty) else name))
  }

  /** The guard of `confirm:create`. */
  predicate Complete(d: Draft) {
    d.client != "" && d.date != "" && d.time != "" && d.managerId != "" && d.managerName != ""
  }

  predicate IsHandle(p: string) {
    StartsWith(p, "@")
  }

  /** The calendar title: the client and the manager's handle, or name. */
  function Title(d: Draft): string {
    d.client + " — " + (if IsHandle(d.managerPretty) then d.managerPretty else d.managerName)
  }

  /** The comment stored with the meeting: who manages it, then the typed comment. */
  function Note(d: Draft): string {
    var prefix := "Менеджер: " + d.managerName + (if IsHandle(d.managerPretty) then " (" + d.managerPretty + ")" else "");
    if d.comment != "" then prefix + "\n" + d.comment else prefix
  }

  /** `int(s) if str(s).isdigit() else 0`. */
  function NumericId(s: string): int {
    if IsDigits(s) then DigitsValue(s) else 0
  }

  /** The start and the end an hour later, or None where Python raises (a malformed date
      or time, or an end past the year 9999). */
  function Slot(date: string, time: string): (r: Option<(DateTime, DateTime)>)
    ensures r.Some? ==> Valid(r.value.0) && Valid(r.value.1)
                        && ToMinutes(r.value.1) == ToMinutes(r.value.0) + 60
  {
    match BuildDt(date, time)
    case Err(_) => None
    case Ok(start) =>
      match AddHour(start)
      case None => None
      case Some(end) => Some((start, end))
  }

  /** A meeting whose date and time went through their parsers has a slot, unless it starts
      in the last hour of the year 9999. */
  lemma ParsedSlot(s: string, ts: string, currentYear: nat)
    requires ParseDateInput(s, currentYear).Some? && ParseTimeInput(ts).Some?
    ensures var start := BuildDt(ParseDateInput(s, currentYear).value, ParseTimeInput(ts).value);
      start.Ok? && (Slot(ParseDateInput(s, currentYear).value, ParseTimeInput(ts).value).None?
                    <==> start.value.year == MaxYear && start.value.month == 12
                         && start.value.day == 31 && start.value.hour == 23)
  {
    ParsedInputsBuild(s, ts, currentYear);
  }

  /** The ledger row `append_meeting` is given once the event exists. */
  function LedgerArgs(u: int, d: Draft, start: DateTime, end: DateTime, eventId: string,
                      chatId: int, threadConfig: string): ManagersRepo.MeetingArgs
    requires Valid(start) && Valid(end)
  {
    ManagersRepo.MeetingArgs(
      u, "", chatId, if IsDigits(threadConfig) then Some(DigitsValue(threadConfig) as int) else None,
      d.client, d.date, d.time, IsoFormat(start), IsoFormat(end), d.managerName,
      if IsHandle(d.managerPretty) then d.managerPretty else "", NumericId(d.managerId),
      Note(d), eventId, "created")
  }

  // ---------------------------------------------------------------- editing a meeting

  /** What an edit step does with the typed text, given the ledger record: refuse it with a
      message, raise, or write the calendar and then the ledger. */
  datatype Plan =
    | Refuse(reply: Reply)
    | Raise
    | Write(calendar: Call, ledger: seq<(string, string)>)

  /** The edit steps of `_handle_fsm_text` once the ledger record is read. */
  function EditPlan(step: Step, eventId: string, text: string, rec: ManagersRepo.Record, year: nat): (p: Plan)
    requires step.IsEdit()
    ensures p.Write? ==> IsCalendarWrite(p.calendar) && Touches(p.calendar, eventId) && |p.ledger| >= 1
  {
    match step
    case AtEditDate =>
      (match ParseDateInput(text, year)
       case None => Refuse(BadDate)
       case Some(parsed) =>
         var time := Strip(RecordField(rec, "time"));
         if time == "" then Refuse(NoCurrentTime)
         else Reschedule(eventId, parsed, time, ("date", parsed)))
    case AtEditTime =>
      (match ParseTimeInput(text)
       case None => Refuse(BadTime)
       case Some(parsed) => Reschedule(eventId, Strip(RecordField(rec, "date")), parsed, ("time", parsed)))
    case AtEditClient =>
      var client := Strip(text);
      if client == "" then Refuse(EmptyClient)
      else Write(CalendarRename(eventId, client), [("client", client)])
    case AtEditComment =>
      var comment := if Strip(text) == "-" then "" else Strip(text);
      Write(CalendarComment(eventId, comment), [("comment", comment)])
  }

  /** Moving a meeting: the calendar gets the new start and end, the ledger the changed
      value, the new ISO times and the status `created`. */
  function Reschedule(eventId: string, date: string, time: string, changed: (string, string)): Plan {
    match Slot(date, time)
    case None => Raise
    case Some((start, end)) =>
      Write(CalendarReschedule(eventId, start, end),
            [changed, ("start_iso", IsoFormat(start)), ("end_iso", IsoFormat(end)), ("status", "created")])
  }

  /** A rescheduling edit keeps the meeting one hour long, and tells the ledger the times it
      gave the calendar. */
  lemma RescheduleKeepsAnHour(step: Step, eventId: string, text: string, rec: ManagersRepo.Record, year: nat)
    requires (step == AtEditDate || step == AtEditTime) && EditPlan(step, eventId, text, rec, year).Write?
    ensures var p := EditPlan(step, eventId, text, rec, year);
      p.calendar.CalendarReschedule? && p.calendar.eventId == eventId
      && Valid(p.calendar.start) && Valid(p.calendar.end)
      && ToMinutes(p.calendar.end) == ToMinutes(p.calendar.start) + 60
      && p.ledger[1..] == [("start_iso", IsoFormat(p.calendar.start)), ("end_iso", IsoFormat(p.calendar.end)),
                           ("status", "created")]
  {
  }

  /** A new date keeps the recorded time, and a new time keeps the recorded date. */
  lemma RescheduleKeepsOtherHalf(step: Step, eventId: string, text: string, rec: ManagersRepo.Record, year: nat)
    requires step.IsEdit() && EditPlan(step, eventId, text, rec, year).Write?
    ensures var p := EditPlan(step, eventId, text, rec, year);
      (step == AtEditDate ==>
         Slot(ParseDateInput(text, year).value, Strip(RecordField(rec, "time"))) == Some((p.calendar.start, p.calendar.end))
         && p.ledger[0] == ("date", ParseDateInput(text, year).value))
      && (step == AtEditTime ==>
            Slot(Strip(RecordField(rec, "date")), ParseTimeInput(text).value) == Some((p.calendar.start, p.calendar.end))
            && p.ledger[0] == ("time", ParseTimeInput(text).value))
  {
  }

  /** Text that does not parse is refused before any write, and a client cannot be blanked;
      a comment is always written, `-` clearing it. */
  lemma EditRefusals(step: Step, eventId: string, text: string, rec: ManagersRepo.Record, year: nat)
    requires step.IsEdit()
    ensures step == AtEditDate && ParseDateInput(text, year).None? ==>
      EditPlan(step, eventId, text, rec, year) == Refuse(BadDate)
    ensures step == AtEditTime && ParseTimeInput(text).None? ==>
      EditPlan(step, eventId, text, rec, year) == Refuse(BadTime)
    ensures step == AtEditClient ==>
      (EditPlan(step, eventId, text, rec, year).Refuse? <==> Strip(text) == "")
    ensures step == AtEditComment ==>
      EditPlan(step, eventId, text, rec, year)
      == Write(CalendarComment(eventId, if Strip(text) == "-" then "" else Strip(text)),
               [("comment", if Strip(text) == "-" then "" else Strip(text))])
  {
  }

  /** The step `meet:editfield:<field>` moves to. */
  function EditStepFor(field: string): (r: Option<Step>)
    ensures r.Some? ==> r.value.IsEdit()
  {
    if field == "date" then Some(AtEditDate)
    else if field == "time" then Some(AtEditTime)
    else if field == "client" then Some(AtEditClient)
    else if field == "comment" then Some(AtEditComment)
    else None
  }

  /** The four values `meet:manager:` stores about the chosen manager. */
  function Picked(c: ManagerChoice): (m: map<Key, string>)
    ensures EditEventId !in m
  {
    map[Manager := c.token, ManagerPretty := c.pretty, ManagerName := c.name, ManagerId := c.telegramId]
  }

  /** The texts that start a new meeting, compared lower-cased. */
  predicate IsStartCommand(text: string) {
    var t := Lower(text);
    t == "/meet" || t == "создать встречу" || t == "+ встреча"
  }

  /** A call about the given event and no other. */
  predicate Touches(c: Call, eventId: string) {
    match c
    case CalendarReschedule(id, _, _) => id == eventId
    case CalendarRename(id, _) => id == eventId
    case CalendarComment(id, _) => id == eventId
    case CalendarDelete(id) => id == eventId
    case LedgerGet(id) => id == eventId
    case LedgerUpdate(id, _) => id == eventId
    case _ => false
  }

  /** The keyboard `ask_manager` shows: the managers two to a row, then back and cancel. */
  function ManagerPrompt(managers: seq<ManagersRepo.Manager>): Reply {
    PromptManager(Pairs(Buttons(managers)) + [[BackToTime], [CancelButton]])
  }

  /** What `ask_manager` sends once the step is set: the keyboard, or nothing when reading
      the managers raised. */
  function ManagerReplies(env: Env): seq<Reply> {
    if env.managers.Ok? then [ManagerPrompt(env.managers.value)] else []
  }

  // ---------------------------------------------------------------- typed text

  /** What one handler does: the sessions after it, the calls it made and the messages it
      sent (in order, as appended to the traces), and whether it raised. */
  datatype Outcome = Outcome(sessions: map<int, Session>, calls: seq<Done>, replies: seq<Reply>, raised: bool)

  /** The edit steps of `_handle_fsm_text`: the ledger record is read again; a failed read
      keeps the session, a missing meeting drops it; otherwise the plan for the typed text
      is carried out, the calendar first and the ledger only after the calendar succeeded. */
  function EditOutcome(sessions: map<int, Session>, u: int, text: string, env: Env): Outcome
    requires u in sessions && sessions[u].step.IsEdit()
  {
    var eid := Strip(Field(sessions[u], EditEventId));
    var read := Done(LedgerGet(eid), env.meeting.Ok?);
    if env.meeting.Err? then Outcome(sessions, [read], [LedgerReadFailed], false)
    else if env.meeting.value.None? || env.meeting.value.value == map[] then
      Outcome(sessions - {u}, [read], [NotInLedger], false)
    else
      var o := PlanOutcome(sessions, u, eid, EditPlan(sessions[u].step, eid, text, env.meeting.value.value, env.year), env);
      o.(calls := [read] + o.calls)
  }

  /** Carrying out an edit plan for the meeting `eid`: a refusal keeps the session; a
      write goes to the calendar, and only when that succeeds to the ledger, after which
      the session ends. */
  function PlanOutcome(sessions: map<int, Session>, u: int, eid: string, p: Plan, env: Env): Outcome {
    match p
    case Refuse(r) => Outcome(sessions, [], [r], false)
    case Raise => Outcome(sessions, [], [], true)
    case Write(c, updates) =>
      if !env.calendarOk then Outcome(sessions, [Done(c, false)], [CalendarUpdateFailed], false)
      else Outcome(sessions - {u}, [Done(c, true), Done(LedgerUpdate(eid, updates), env.ledgerOk)],
                   (if env.ledgerOk then [] else [LedgerWarning]) + [UpdatedNotice(eid)], false)
  }

  /** `_handle_fsm_text`: what text typed by user `u` does at the step of the user's
      session. Without a session, and at a step that waits for a button, nothing happens. */
  function TypedText(sessions: map<int, Session>, u: int, text: string, env: Env): Outcome {
    if u !in sessions then Outcome(sessions, [], [], false)
    else
      var s := sessions[u];
      if s.step.IsEdit() then EditOutcome(sessions, u, text, env)
      else
        match s.step
        case AtClient => Outcome(sessions[u := Set(s, Client, text).(step := AtDate)], [], [PromptDate], false)
        case AtCustomDate =>
          (match ParseDateInput(text, env.year)
           case None => Outcome(sessions, [], [BadDate], false)
           case Some(date) => Outcome(sessions[u := Set(s, Date, date).(step := AtTime)], [], [PromptTime], false))
        case AtCustomTime =>
          (match ParseTimeInput(text)
           case None => Outcome(sessions, [], [BadTime], false)
           case Some(time) =>
             Outcome(sessions[u := Set(s, Time, time).(step := AtManager)],
                     [Done(ReadManagers, env.managers.Ok?)], ManagerReplies(env), env.managers.Err?))
        case AtComment =>
          Outcome(sessions[u := Set(s, Comment, text).(step := AtConfirm)], [], [ConfirmOf(Set(s, Comment, text))], false)
        case _ => Outcome(sessions, [], [], false)
  }

  /** Typed text changes no session but its author's and keeps every session well formed;
      its writes are calendar first, and the trace it adds never starts with a ledger write. */
  lemma TypedTextSafe(sessions: map<int, Session>, u: int, text: string, env: Env)
    requires forall v | v in sessions :: SessionOk(sessions[v])
    ensures var o := TypedText(sessions, u, text, env);
      (forall v | v != u && v in sessions :: v in o.sessions && o.sessions[v] == sessions[v])
      && (forall v | v != u && v in o.sessions :: v in sessions)
      && (forall v | v in o.sessions :: SessionOk(o.sessions[v]))
      && CalendarFirst(o.calls) && (o.calls != [] ==> !IsLedgerWrite(o.calls[0].call))
  {
    var o := TypedText(sessions, u, text, env);
    if u in sessions && sessions[u].step.IsEdit() {
      EditTraceOrdered(sessions, u, text, env);
    } else {
      assert forall k | 0 <= k < |o.calls| :: !IsLedgerWrite(o.calls[k].call);
    }
  }

  lemma EditTraceOrdered(sessions: map<int, Session>, u: int, text: string, env: Env)
    requires u in sessions && sessions[u].step.IsEdit()
    ensures var o := EditOutcome(sessions, u, text, env);
      CalendarFirst(o.calls) && o.calls != [] && !IsLedgerWrite(o.calls[0].call)
  {
    var s := sessions[u];
    var eid := Strip(Field(s, EditEventId));
    var read := Done(LedgerGet(eid), env.meeting.Ok?);
    assert CalendarFirst([read]);
    if env.meeting.Ok? && env.meeting.value.Some? && env.meeting.value.value != map[] {
      var p := EditPlan(s.step, eid, text, env.meeting.value.value, env.year);
      PlanTraceOrdered(sessions, u, eid, p, env);
      CalendarFirstAppend([read], PlanOutcome(sessions, u, eid, p, env).calls);
    }
  }

  lemma PlanTraceOrdered(sessions: map<int, Session>, u: int, eid: string, p: Plan, env: Env)
    requires p.Write? ==> IsCalendarWrite(p.calendar)
    ensures var t := PlanOutcome(sessions, u, eid, p, env).calls;
      CalendarFirst(t) && (t != [] ==> !IsLedgerWrite(t[0].call))
  {
    if p.Write? {
      SagaStep(p.calendar, LedgerUpdate(eid, p.ledger), env.ledgerOk);
    }
  }

  /** Typed text at an edit step first reads the meeting under edit from the ledger, and
      every call it makes is about that meeting; the meeting changes only when the calendar
      accepted the change, and then the edit session ends. */
  lemma EditTouchesOnlyItsMeeting(sessions: map<int, Session>, u: int, text: string, env: Env)
    requires u in sessions && sessions[u].step.IsEdit()
    ensures var o := EditOutcome(sessions, u, text, env);
      var eid := Strip(Field(sessions[u], EditEventId));
      o.calls != [] && o.calls[0] == Done(LedgerGet(eid), env.meeting.Ok?)
      && (forall k | 0 <= k < |o.calls| :: Touches(o.calls[k].call, eid))
      && (forall k | 0 <= k < |o.calls| :: IsLedgerWrite(o.calls[k].call) <==> k == 2)
      && (|o.calls| == 3 ==> u !in o.sessions)
  {
    var eid := Strip(Field(sessions[u], EditEventId));
    var read := Done(LedgerGet(eid), env.meeting.Ok?);
    var o := EditOutcome(sessions, u, text, env);
    if env.meeting.Ok? && env.meeting.value.Some? && env.meeting.value.value != map[] {
      var p := EditPlan(sessions[u].step, eid, text, env.meeting.value.value, env.year);
      var q := PlanOutcome(sessions, u, eid, p, env);
      PlanTouches(sessions, u, eid, p, env);
      assert o.calls == [read] + q.calls && o.sessions == q.sessions;
      assert forall k | 1 <= k < |o.calls| :: o.calls[k] == q.calls[k - 1];
    } else {
      assert o.calls == [read];
    }
  }

  lemma PlanTouches(sessions: map<int, Session>, u: int, eid: string, p: Plan, env: Env)
    requires p.Write? ==> IsCalendarWrite(p.calendar) && Touches(p.calendar, eid)
    ensures var q := PlanOutcome(sessions, u, eid, p, env);
      (forall k | 0 <= k < |q.calls| :: Touches(q.calls[k].call, eid))
      && (forall k | 0 <= k < |q.calls| :: IsLedgerWrite(q.calls[k].call) <==> k == 1)
      && (|q.calls| == 2 ==> q.sessions == sessions - {u})
      && (|q.calls| < 2 ==> q.sessions == sessions)
  {
  }

  /** The payloads `handle_callback` acts on: five fixed ones and ten prefixes. */
  predicate KnownPayload(data: string) {
    data == "meet:new" || data == "meet:create" || data == "meet:deleted:edit" || data == "meet:deleted:delete"
    || data == "meet:cancel"
    || StartsWith(data, "meet:edit:") || StartsWith(data, "meet:delete:") || StartsWith(data, "meet:editfield:")
    || StartsWith(data, "meet:back:") || StartsWith(data, "meet:date:") || StartsWith(data, "meet:time:")
    || StartsWith(data, "meet:manager:") || StartsWith(data, "meet:comment:") || StartsWith(data, "meet:confirm:")
  }

  /** Whom a private message is attributed to: its author, else the raw sender, else
      nobody (0). */
  function PrivateAuthor(m: Message): int {
    match ResolveUserId(m)
    case Some(id) => id
    case None => if m.sender.Some? then m.sender.value.id else 0
  }

  /** A message the dialog acts on: in a private chat one with someone to attribute it
      to; in a group one in the meetings thread with a known author and non-empty text. */
  predicate Speaks(m: Message, env: Env) {
    if m.chatType == "private" then PrivateAuthor(m) != 0
    else InMeetsThread(m, env.threadConfig) && ResolveUserId(m).Some? && Strip(m.text) != ""
  }

  /** The user such a message speaks for. */
  function Speaker(m: Message): int {
    if m.chatType == "private" then PrivateAuthor(m)
    else if ResolveUserId(m).Some? then ResolveUserId(m).value else 0
  }

  // ---------------------------------------------------------------- the bot

  class MeetingBot {
    /** `STATE`: user id -> session. */
    var sessions: map<int, Session>
    /** Every call made to a store, with its outcome, in order. */
    var calls: seq<Done>
    /** Every message sent, in order. */
    var replies: seq<Reply>

    predicate Valid()
      reads this
    {
      (forall u | u in sessions :: SessionOk(sessions[u])) && CalendarFirst(calls)
    }

    /** The state is the one `o` describes, after the traces `calls0` and `replies0`. */
    predicate Applied(o: Outcome, calls0: seq<Done>, replies0: seq<Reply>, raised: bool)
      reads this
    {
      sessions == o.sessions && calls == calls0 + o.calls && replies == replies0 + o.replies && raised == o.raised
    }

    constructor ()
      ensures sessions == map[] && calls == [] && replies == []
      ensures Valid()
    {
      sessions := map[];
      calls := [];
      replies := [];
    }

    /** `ask_client`: the session is replaced by a fresh one at the client step. */
    method AskClient(u: int)
      requires Valid()
      modifies this
      ensures Valid()
      ensures sessions == old(sessions)[u := Fresh]
      ensures calls == old(calls) && replies == old(replies) + [PromptClient]
    {
      sessions := sessions[u := Fresh];
      replies := replies + [PromptClient];
    }

    /** `ask_date`, `ask_custom_date`, `ask_time`, `ask_custom_time` and `ask_comment`: only
        the step changes. Without a session the assignment raises KeyError. */
    method AskStep(u: int, step: Step) returns (raised: bool)
      requires Valid()
      requires step == AtDate || step == AtCustomDate || step == AtTime || step == AtCustomTime || step == AtComment
      modifies this
      ensures Valid()
      ensures raised <==> u !in old(sessions)
      ensures sessions == if raised then old(sessions) else old(sessions)[u := old(sessions)[u].(step := step)]
      ensures calls == old(calls)
      ensures replies == old(replies) + (if raised then [] else [Prompt(step)])
    {
      if u !in sessions {
        return true;
      }
      sessions := sessions[u := sessions[u].(step := step)];
      replies := replies + [Prompt(step)];
      raised := false;
    }

    /** One value of a session set, as the handlers do before moving to the next step. */
    method Put(u: int, k: Key, v: string)
      requires Valid() && u in sessions && k != EditEventId
      modifies this
      ensures Valid()
      ensures sessions == old(sessions)[u := Set(old(sessions)[u], k, v)]
      ensures calls == old(calls) && replies == old(replies)
    {
      sessions := sessions[u := Set(sessions[u], k, v)];
    }

    /** `ask_manager`: the step changes, then the managers are read for the keyboard; a
        failed read raises after the step was set. */
    method AskManager(u: int, env: Env) returns (raised: bool)
      requires Valid()
      modifies this
      ensures Valid()
      ensures raised <==> u !in old(sessions) || env.managers.Err?
      ensures sessions == if u !in old(sessions) then old(sessions)
                          else old(sessions)[u := old(sessions)[u].(step := AtManager)]
      ensures calls == old(calls) + (if u in old(sessions) then [Done(ReadManagers, env.managers.Ok?)] else [])
      ensures replies == old(replies) + (if u in old(sessions) then ManagerReplies(env) else [])
    {
      if u !in sessions {
        return true;
      }
      sessions := sessions[u := sessions[u].(step := AtManager)];
      CalendarFirstAppend(calls, [Done(ReadManagers, env.managers.Ok?)]);
      calls := calls + [Done(ReadManagers, env.managers.Ok?)];
      if env.managers.Err? {
        return true;
      }
      var rows := ManagersKeyboard(env.managers.value);
      replies := replies + [PromptManager(rows)];
      raised := false;
    }

    /** `show_confirm`: the summary is shown and the session moves to the confirm step. */
    method ShowConfirm(u: int)
      requires Valid() && u in sessions
      modifies this
      ensures Valid()
      ensures sessions == old(sessions)[u := old(sessions)[u].(step := AtConfirm)]
      ensures calls == old(calls) && replies == old(replies) + [ConfirmOf(old(sessions)[u])]
    {
      replies := replies + [ConfirmOf(sessions[u])];
      sessions := sessions[u := sessions[u].(step := AtConfirm)];
    }

    /** `meet:cancel`: the session is dropped, whatever its step, and no store is called. */
    method OnCancel(u: int)
      requires Valid()
      modifies this
      ensures Valid()
      ensures sessions == old(sessions) - {u}
      ensures calls == old(calls) && replies == old(replies) + [Cancelled]
    {
      sessions := sessions - {u};
      replies := replies + [Cancelled];
    }

    /** `meet:edit:<id>`: the meeting is looked up in the ledger; when found, the session is
        replaced by an edit session for it. A failed read or a missing meeting leaves the
        sessions alone. */
    method OnEdit(u: int, eventId: string, env: Env)
      requires Valid()
      modifies this
      ensures Valid()
      ensures eventId == "" ==> sessions == old(sessions) && calls == old(calls) && replies == old(replies) + [NoEventId]
      ensures eventId != "" ==> calls == old(calls) + [Done(LedgerGet(eventId), env.meeting.Ok?)]
      ensures eventId != "" && env.meeting.Err? ==> sessions == old(sessions) && replies == old(replies) + [LedgerReadFailed]
      ensures eventId != "" && env.meeting.Ok? && (env.meeting.value.None? || env.meeting.value.value == map[]) ==>
                sessions == old(sessions) && replies == old(replies) + [NotInLedger]
      ensures eventId != "" && env.meeting.Ok? && env.meeting.value.Some? && env.meeting.value.value != map[] ==>
                sessions == old(sessions)[u := Session(AtEditMenu, map[EditEventId := eventId])]
                && replies == old(replies) + [EditMenuOf(env.meeting.value.value, eventId)]
    {
      if eventId == "" {
        replies := replies + [NoEventId];
        return;
      }
      CalendarFirstAppend(calls, [Done(LedgerGet(eventId), env.meeting.Ok?)]);
      calls := calls + [Done(LedgerGet(eventId), env.meeting.Ok?)];
      if env.meeting.Err? {
        replies := replies + [LedgerReadFailed];
      } else if env.meeting.value.None? || env.meeting.value.value == map[] {
        replies := replies + [NotInLedger];
      } else {
        sessions := sessions[u := Session(AtEditMenu, map[EditEventId := eventId])];
        replies := replies + [EditMenuOf(env.meeting.value.value, eventId)];
      }
    }

    /** `meet:delete:<id>`: the calendar event is deleted first; only then is the ledger row
        marked `canceled`, whose failure only warns. The session goes only when it edits the
        deleted meeting. */
    method OnDelete(u: int, eventId: string, env: Env)
      requires Valid()
      modifies this
      ensures Valid()
      ensures eventId == "" ==> sessions == old(sessions) && calls == old(calls) && replies == old(replies) + [NoEventId]
      ensures eventId != "" && !env.calendarOk ==>
                sessions == old(sessions) && calls == old(calls) + [Done(CalendarDelete(eventId), false)]
                && replies == old(replies) + [CalendarDeleteFailed]
      ensures eventId != "" && env.calendarOk ==>
                calls == old(calls) + [Done(CalendarDelete(eventId), true),
                                       Done(LedgerUpdate(eventId, [("status", "canceled")]), env.ledgerOk)]
                && sessions == (if u in old(sessions) && Field(old(sessions)[u], EditEventId) == eventId
                                then old(sessions) - {u} else old(sessions))
                && replies == old(replies) + (if env.ledgerOk then [] else [LedgerWarning]) + [DeletedNotice]
    {
      if eventId == "" {
        replies := replies + [NoEventId];
        return;
      }
      var del := CalendarDelete(eventId);
      var mark := LedgerUpdate(eventId, [("status", "canceled")]);
      SagaStep(del, mark, env.ledgerOk);
      if !env.calendarOk {
        CalendarFirstAppend(calls, [Done(del, false)]);
        calls := calls + [Done(del, false)];
        replies := replies + [CalendarDeleteFailed];
        return;
      }
      CalendarFirstAppend(calls, [Done(del, true), Done(mark, env.ledgerOk)]);
      calls := calls + [Done(del, true), Done(mark, env.ledgerOk)];
      if !env.ledgerOk {
        replies := replies + [LedgerWarning];
      }
      if u in sessions && Field(sessions[u], EditEventId) == eventId {
        sessions := sessions - {u};
      }
      replies := replies + [DeletedNotice];
    }

    /** `meet:editfield:<field>`: an edit session moves to the step typing that field; a
        user with no event under edit is told the session expired and loses it. */
    method OnEditField(u: int, field: string)
      requires Valid()
      modifies this
      ensures Valid()
      ensures calls == old(calls)
      ensures u !in old(sessions) || Strip(Field(old(sessions)[u], EditEventId)) == "" ==>
        sessions == old(sessions) - {u} && replies == old(replies) + [EditSessionExpired]
      ensures u in old(sessions) && Strip(Field(old(sessions)[u], EditEventId)) != "" ==>
        match EditStepFor(field)
        case None => sessions == old(sessions) && replies == old(replies)
        case Some(step) => sessions == old(sessions)[u := old(sessions)[u].(step := step)]
                           && replies == old(replies) + [Prompt(step)]
    {
      if u !in sessions || Strip(Field(sessions[u], EditEventId)) == "" {
        replies := replies + [EditSessionExpired];
        sessions := sessions - {u};
        return;
      }
      match EditStepFor(field)
      case None =>
      case Some(step) =>
        sessions := sessions[u := sessions[u].(step := step)];
        replies := replies + [Prompt(step)];
    }

    /** `meet:back:<step>`: back to the client step (a fresh session) or to the date, time
        or manager step. */
    method OnBack(u: int, step: string, env: Env) returns (raised: bool)
      requires Valid()
      modifies this
      ensures Valid()
      ensures step == "client" ==>
        !raised && sessions == old(sessions)[u := Fresh] && calls == old(calls) && replies == old(replies) + [PromptClient]
      ensures step == "date" || step == "time" ==>
        var next := if step == "date" then AtDate else AtTime;
        (raised <==> u !in old(sessions))
        && sessions == (if u in old(sessions) then old(sessions)[u := old(sessions)[u].(step := next)] else old(sessions))
        && calls == old(calls) && replies == old(replies) + (if u in old(sessions) then [Prompt(next)] else [])
      ensures step == "manager" ==>
        (raised <==> u !in old(sessions) || env.managers.Err?)
        && sessions == (if u in old(sessions) then old(sessions)[u := old(sessions)[u].(step := AtManager)] else old(sessions))
        && calls == old(calls) + (if u in old(sessions) then [Done(ReadManagers, env.managers.Ok?)] else [])
        && replies == old(replies) + (if u in old(sessions) then ManagerReplies(env) else [])
      ensures !(step == "client" || step == "date" || step == "time" || step == "manager") ==>
        !raised && sessions == old(sessions) && calls == old(calls) && replies == old(replies)
    {
      raised := false;
      if step == "client" {
        AskClient(u);
      } else if step == "date" {
        raised := AskStep(u, AtDate);
      } else if step == "time" {
        raised := AskStep(u, AtTime);
      } else if step == "manager" {
        raised := AskManager(u, env);
      }
    }

    /** `meet:date:<choice>`: today or tomorrow is stored as the date and the time asked;
        `custom` asks for a typed date. Without a session a fresh one is started instead. */
    method OnDate(u: int, choice: string, env: Env)
      requires Valid()
      modifies this
      ensures Valid()
      ensures calls == old(calls)
      ensures u !in old(sessions) ==> sessions == old(sessions)[u := Fresh] && replies == old(replies) + [PromptClient]
      ensures u in old(sessions) && (choice == "today" || choice == "tomorrow") ==>
        var date := if choice == "today" then env.today else env.tomorrow;
        sessions == old(sessions)[u := Set(old(sessions)[u], Date, date).(step := AtTime)]
        && replies == old(replies) + [PromptTime]
      ensures u in old(sessions) && choice == "custom" ==>
        sessions == old(sessions)[u := old(sessions)[u].(step := AtCustomDate)]
        && replies == old(replies) + [PromptCustomDate]
      ensures u in old(sessions) && !(choice == "today" || choice == "tomorrow" || choice == "custom") ==>
        sessions == old(sessions) && replies == old(replies)
    {
      if u !in sessions {
        AskClient(u);
        return;
      }
      var raised;
      if choice == "today" || choice == "tomorrow" {
        Put(u, Date, if choice == "today" then env.today else env.tomorrow);
        raised := AskStep(u, AtTime);
      } else if choice == "custom" {
        raised := AskStep(u, AtCustomDate);
      }
    }

    /** `meet:time:<choice>`: `custom` asks for a typed time; anything else is stored as the
        time as it is, without validation, and the manager asked. */
    method OnTime(u: int, choice: string, env: Env) returns (raised: bool)
      requires Valid()
      modifies this
      ensures Valid()
      ensures raised <==> u in old(sessions) && choice != "custom" && env.managers.Err?
      ensures u !in old(sessions) ==>
        sessions == old(sessions)[u := Fresh] && calls == old(calls) && replies == old(replies) + [PromptClient]
      ensures u in old(sessions) && choice == "custom" ==>
        sessions == old(sessions)[u := old(sessions)[u].(step := AtCustomTime)] && calls == old(calls)
        && replies == old(replies) + [PromptCustomTime]
      ensures u in old(sessions) && choice != "custom" ==>
        sessions == old(sessions)[u := Set(old(sessions)[u], Time, choice).(step := AtManager)]
        && calls == old(calls) + [Done(ReadManagers, env.managers.Ok?)]
        && replies == old(replies) + ManagerReplies(env)
    {
      raised := false;
      if u !in sessions {
        AskClient(u);
        return;
      }
      if choice == "custom" {
        raised := AskStep(u, AtCustomTime);
      } else {
        Put(u, Time, choice);
        raised := AskManager(u, env);
      }
    }

    /** `meet:manager:<payload>`: the chosen manager is stored and the comment asked. */
    method OnManager(u: int, raw: string)
      requires Valid()
      modifies this
      ensures Valid()
      ensures calls == old(calls)
      ensures u !in old(sessions) ==> sessions == old(sessions)[u := Fresh] && replies == old(replies) + [PromptClient]
      ensures u in old(sessions) ==>
        var s := old(sessions)[u];
        sessions == old(sessions)[u := Session(AtComment, s.fields + Picked(ChooseManager(raw)))]
        && replies == old(replies) + [PromptComment]
    {
      if u !in sessions {
        AskClient(u);
        return;
      }
      var s := sessions[u];
      sessions := sessions[u := s.(fields := s.fields + Picked(ChooseManager(raw)))];
      var raised := AskStep(u, AtComment);
    }

    /** `meet:comment:<choice>`: `skip` stores an empty comment and shows the summary. */
    method OnComment(u: int, choice: string)
      requires Valid()
      modifies this
      ensures Valid()
      ensures calls == old(calls)
      ensures u !in old(sessions) ==> sessions == old(sessions)[u := Fresh] && replies == old(replies) + [PromptClient]
      ensures u in old(sessions) && choice == "skip" ==>
        sessions == old(sessions)[u := Set(old(sessions)[u], Comment, "").(step := AtConfirm)]
        && replies == old(replies) + [ConfirmOf(Set(old(sessions)[u], Comment, ""))]
      ensures u in old(sessions) && choice != "skip" ==> sessions == old(sessions) && replies == old(replies)
    {
      if u !in sessions {
        AskClient(u);
        return;
      }
      if choice == "skip" {
        Put(u, Comment, "");
        ShowConfirm(u);
      }
    }

    /** `confirm:create`: with every required value present, the calendar event is created
        for an hour from the chosen time, then the ledger row appended; a calendar failure
        keeps the session and calls nothing more, a ledger failure only warns. */
    method CreateMeeting(u: int, env: Env) returns (raised: bool)
      requires Valid() && u in sessions
      modifies this
      ensures Valid()
      ensures var d := DraftOf(old(sessions)[u]);
        !Complete(d) ==> !raised && sessions == old(sessions) && calls == old(calls)
                         && replies == old(replies) + [MissingData]
      ensures var d := DraftOf(old(sessions)[u]);
        Complete(d) && Slot(d.date, d.time).None? ==>
          raised && sessions == old(sessions) && calls == old(calls) && replies == old(replies)
      ensures var d := DraftOf(old(sessions)[u]);
        Complete(d) && Slot(d.date, d.time).Some? ==>
          !raised
          && sessions == (if env.created.Ok? then old(sessions) - {u} else old(sessions))
          && calls == old(calls) + BookCalls(u, d, Slot(d.date, d.time).value, env)
          && replies == old(replies) + BookReplies(env)
    {
      var d := DraftOf(sessions[u]);
      if !Complete(d) {
        replies := replies + [MissingData];
        return false;
      }
      var slot := Slot(d.date, d.time);
      if slot.None? {
        return true;
      }
      Book(u, d, slot.value, env);
      raised := false;
    }

    /** The writes of `confirm:create` once the start and end are known. */
    method Book(u: int, d: Draft, slot: (DateTime, DateTime), env: Env)
      requires Valid() && DateTimes.Valid(slot.0) && DateTimes.Valid(slot.1)
      modifies this
      ensures Valid()
      ensures sessions == (if env.created.Ok? then old(sessions) - {u} else old(sessions))
      ensures calls == old(calls) + BookCalls(u, d, slot, env)
      ensures replies == old(replies) + BookReplies(env)
    {
      BookingOrder(u, d, slot, env);
      CalendarFirstAppend(calls, BookCalls(u, d, slot, env));
      calls := calls + BookCalls(u, d, slot, env);
      replies := replies + BookReplies(env);
      if env.created.Ok? {
        sessions := sessions - {u};
      }
    }

    /** `meet:confirm:<action>`: `edit` starts over at the client step, `create` creates the
        meeting. Without a session a fresh one is started instead. */
    method OnConfirm(u: int, action: string, env: Env) returns (raised: bool)
      requires Valid()
      modifies this
      ensures Valid()
      ensures u !in old(sessions) || action == "edit" ==>
        !raised && sessions == old(sessions)[u := Fresh] && calls == old(calls) && replies == old(replies) + [PromptClient]
      ensures u in old(sessions) && action == "create" ==>
        var d := DraftOf(old(sessions)[u]);
        (!Complete(d) ==> !raised && sessions == old(sessions) && calls == old(calls)
                          && replies == old(replies) + [MissingData])
        && (Complete(d) && Slot(d.date, d.time).None? ==>
              raised && sessions == old(sessions) && calls == old(calls) && replies == old(replies))
        && (Complete(d) && Slot(d.date, d.time).Some? ==>
              !raised
              && sessions == (if env.created.Ok? then old(sessions) - {u} else old(sessions))
              && calls == old(calls) + BookCalls(u, d, Slot(d.date, d.time).value, env)
              && replies == old(replies) + BookReplies(env))
      ensures u in old(sessions) && action != "edit" && action != "create" ==>
        !raised && sessions == old(sessions) && calls == old(calls) && replies == old(replies)
    {
      raised := false;
      if u !in sessions || action == "edit" {
        AskClient(u);
      } else if action == "create" {
        raised := CreateMeeting(u, env);
      }
    }

    /** `handle_callback`: a button press from user `fromId` (0 when the update names none). */
    method HandleCallback(fromId: int, data: string, env: Env) returns (raised: bool)
      requires Valid()
      modifies this
      ensures Valid()
      ensures fromId == 0 ==> sessions == old(sessions) && calls == old(calls) && replies == old(replies)
      ensures fromId != 0 && data == "meet:cancel" ==>
        !raised && sessions == old(sessions) - {fromId} && calls == old(calls) && replies == old(replies) + [Cancelled]
      ensures fromId != 0 && (data == "meet:new" || data == "meet:create") ==>
        !raised && sessions == old(sessions)[fromId := Fresh] && calls == old(calls)
        && replies == old(replies) + [PromptClient]
      ensures fromId != 0 && (data == "meet:deleted:edit" || data == "meet:deleted:delete") ==>
        !raised && sessions == old(sessions) && calls == old(calls) && replies == old(replies) + [AlreadyDeleted]
      ensures fromId != 0 && !KnownPayload(data) ==>
        !raised && sessions == old(sessions) && calls == old(calls) && replies == old(replies)
    {
      raised := false;
      if fromId == 0 {
        return;
      }
      var u := fromId;
      if data == "meet:new" || data == "meet:create" {
        AskClient(u);
      } else if data == "meet:deleted:edit" || data == "meet:deleted:delete" {
        replies := replies + [AlreadyDeleted];
      } else if data == "meet:cancel" {
        OnCancel(u);
      } else if StartsWith(data, "meet:edit:") {
        OnEdit(u, Strip(data[10..]), env);
      } else if StartsWith(data, "meet:delete:") {
        OnDelete(u, Strip(data[12..]), env);
      } else if StartsWith(data, "meet:editfield:") {
        OnEditField(u, Strip(data[15..]));
      } else if StartsWith(data, "meet:back:") {
        raised := OnBack(u, data[10..], env);
      } else if StartsWith(data, "meet:date:") {
        OnDate(u, data[10..], env);
      } else if StartsWith(data, "meet:time:") {
        raised := OnTime(u, data[10..], env);
      } else if StartsWith(data, "meet:manager:") {
        OnManager(u, data[13..]);
      } else if StartsWith(data, "meet:comment:") {
        OnComment(u, data[13..]);
      } else if StartsWith(data, "meet:confirm:") {
        raised := OnConfirm(u, data[13..], env);
      }
    }

    /** The edit steps of `_handle_fsm_text`, as `EditOutcome` describes them. */
    method EditText(u: int, text: string, env: Env) returns (raised: bool)
      requires Valid() && u in sessions && sessions[u].step.IsEdit()
      modifies this
      ensures Valid()
      ensures Applied(EditOutcome(old(sessions), u, text, env), old(calls), old(replies), raised)
    {
      var eid := Strip(Field(sessions[u], EditEventId));
      CalendarFirstAppend(calls, [Done(LedgerGet(eid), env.meeting.Ok?)]);
      calls := calls + [Done(LedgerGet(eid), env.meeting.Ok?)];
      if env.meeting.Err? {
        replies := replies + [LedgerReadFailed];
        return false;
      }
      if env.meeting.value.None? || env.meeting.value.value == map[] {
        replies := replies + [NotInLedger];
        sessions := sessions - {u};
        return false;
      }
      var p := EditPlan(sessions[u].step, eid, text, env.meeting.value.value, env.year);
      Seqs.AppendAssoc(old(calls), [Done(LedgerGet(eid), env.meeting.Ok?)], PlanOutcome(sessions, u, eid, p, env).calls);
      raised := Carry(u, eid, p, env);
    }

    /** Carrying out an edit plan: a refusal keeps the session; a write goes to the
        calendar, and only when that succeeds to the ledger, after which the session ends. */
    method Carry(u: int, eid: string, p: Plan, env: Env) returns (raised: bool)
      requires Valid()
      requires p.Write? ==> IsCalendarWrite(p.calendar)
      modifies this
      ensures Valid()
      ensures raised <==> p.Raise?
      ensures p.Refuse? ==> sessions == old(sessions) && calls == old(calls) && replies == old(replies) + [p.reply]
      ensures p.Raise? ==> sessions == old(sessions) && calls == old(calls) && replies == old(replies)
      ensures p.Write? && !env.calendarOk ==>
        sessions == old(sessions) && calls == old(calls) + [Done(p.calendar, false)]
        && replies == old(replies) + [CalendarUpdateFailed]
      ensures p.Write? && env.calendarOk ==>
        sessions == old(sessions) - {u}
        && calls == old(calls) + [Done(p.calendar, true), Done(LedgerUpdate(eid, p.ledger), env.ledgerOk)]
        && replies == old(replies) + (if env.ledgerOk then [] else [LedgerWarning]) + [UpdatedNotice(eid)]
      ensures Applied(PlanOutcome(old(sessions), u, eid, p, env), old(calls), old(replies), raised)
    {
      match p
      case Refuse(r) =>
        replies := replies + [r];
        return false;
      case Raise =>
        return true;
      case Write(c, updates) =>
        raised := false;
        var w := LedgerUpdate(eid, updates);
        SagaStep(c, w, env.ledgerOk);
        if !env.calendarOk {
          CalendarFirstAppend(calls, [Done(c, false)]);
          calls := calls + [Done(c, false)];
          replies := replies + [CalendarUpdateFailed];
          return;
        }
        CalendarFirstAppend(calls, [Done(c, true), Done(w, env.ledgerOk)]);
        calls := calls + [Done(c, true), Done(w, env.ledgerOk)];
        sessions := sessions - {u};
        replies := replies + (if env.ledgerOk then [] else [LedgerWarning]) + [UpdatedNotice(eid)];
    }

    /** `_handle_fsm_text`: typed text at the current step of the user's session. Text at
        a step that waits for a button is ignored. */
    method HandleText(u: int, text: string, env: Env) returns (raised: bool)
      requires Valid()
      modifies this
      ensures Valid()
      ensures u !in old(sessions) ==>
        !raised && sessions == old(sessions) && calls == old(calls) && replies == old(replies)
      ensures u in old(sessions) && old(sessions)[u].step in {AtDate, AtTime, AtManager, AtConfirm, AtEditMenu} ==>
        !raised && sessions == old(sessions) && calls == old(calls) && replies == old(replies)
      ensures Applied(TypedText(old(sessions), u, text, env), old(calls), old(replies), raised)
    {
      raised := false;
      if u !in sessions {
        return;
      }
      var step := sessions[u].step;
      if step == AtClient {
        TypedClient(u, text);
      } else if step == AtCustomDate {
        TypedDate(u, text, env.year);
      } else if step == AtCustomTime {
        raised := TypedTime(u, text, env);
      } else if step == AtComment {
        TypedComment(u, text);
      } else if step.IsEdit() {
        raised := EditText(u, text, env);
      }
    }

    /** Text at the client step is the client; the date is asked next. */
    method TypedClient(u: int, text: string)
      requires Valid() && u in sessions
      modifies this
      ensures Valid()
      ensures sessions == old(sessions)[u := Set(old(sessions)[u], Client, text).(step := AtDate)]
      ensures calls == old(calls) && replies == old(replies) + [PromptDate]
    {
      Put(u, Client, text);
      var raised := AskStep(u, AtDate);
    }

    /** Text at the custom date step is parsed; a date that does not parse is refused and the
        step stays, otherwise it is stored and the time asked. */
    method TypedDate(u: int, text: string, year: nat)
      requires Valid() && u in sessions
      modifies this
      ensures Valid()
      ensures calls == old(calls)
      ensures ParseDateInput(text, year).None? ==> sessions == old(sessions) && replies == old(replies) + [BadDate]
      ensures ParseDateInput(text, year).Some? ==>
        sessions == old(sessions)[u := Set(old(sessions)[u], Date, ParseDateInput(text, year).value).(step := AtTime)]
        && replies == old(replies) + [PromptTime]
    {
      var parsed := ParseDateInput(text, year);
      if parsed.None? {
        replies := replies + [BadDate];
        return;
      }
      Put(u, Date, parsed.value);
      var raised := AskStep(u, AtTime);
    }

    /** Text at the custom time step is parsed; a time that does not parse is refused and the
        step stays, otherwise it is stored and the manager asked. */
    method TypedTime(u: int, text: string, env: Env) returns (raised: bool)
      requires Valid() && u in sessions
      modifies this
      ensures Valid()
      ensures ParseTimeInput(text).None? ==>
        !raised && sessions == old(sessions) && calls == old(calls) && replies == old(replies) + [BadTime]
      ensures ParseTimeInput(text).Some? ==>
        (raised <==> env.managers.Err?)
        && sessions == old(sessions)[u := Set(old(sessions)[u], Time, ParseTimeInput(text).value).(step := AtManager)]
        && calls == old(calls) + [Done(ReadManagers, env.managers.Ok?)]
        && replies == old(replies) + ManagerReplies(env)
    {
      var parsed := ParseTimeInput(text);
      if parsed.None? {
        replies := replies + [BadTime];
        return false;
      }
      Put(u, Time, parsed.value);
      raised := AskManager(u, env);
    }

    /** Text at the comment step is the comment; the summary is shown next. */
    method TypedComment(u: int, text: string)
      requires Valid() && u in sessions
      modifies this
      ensures Valid()
      ensures sessions == old(sessions)[u := Set(old(sessions)[u], Comment, text).(step := AtConfirm)]
      ensures calls == old(calls) && replies == old(replies) + [ConfirmOf(Set(old(sessions)[u], Comment, text))]
    {
      Put(u, Comment, text);
      ShowConfirm(u);
    }

    /** `handle_message`: in a private chat the author (or the raw sender) may start a
        meeting or continue a session; in a group only messages of the meetings thread
        count, and only with a known author and non-empty text. */
    method HandleMessage(m: Message, env: Env) returns (raised: bool)
      requires Valid()
      modifies this
      ensures Valid()
      ensures m.chatType != "private" && !InMeetsThread(m, env.threadConfig) ==>
        !raised && sessions == old(sessions) && calls == old(calls) && replies == old(replies)
      ensures m.chatType != "private" && InMeetsThread(m, env.threadConfig) && ResolveUserId(m).None? ==>
        !raised && sessions == old(sessions) && calls == old(calls)
        && replies == old(replies) + (if Strip(m.text) != "" then [NoAuthor] else [])
      ensures m.chatType == "private" && PrivateAuthor(m) == 0 ==>
        !raised && sessions == old(sessions) && calls == old(calls) && replies == old(replies)
      ensures m.chatType != "private" && InMeetsThread(m, env.threadConfig) && ResolveUserId(m).Some?
              && Strip(m.text) == "" ==>
        !raised && sessions == old(sessions) && calls == old(calls) && replies == old(replies)
      ensures Speaks(m, env) && IsStartCommand(Strip(m.text)) ==>
        !raised && sessions == old(sessions)[Speaker(m) := Fresh] && calls == old(calls)
        && replies == old(replies) + [PromptClient]
      ensures Speaks(m, env) && !IsStartCommand(Strip(m.text)) ==>
        Applied(TypedText(old(sessions), Speaker(m), Strip(m.text), env), old(calls), old(replies), raised)
    {
      raised := false;
      var text := Strip(m.text);
      if m.chatType == "private" {
        var uid := PrivateAuthor(m);
        if uid == 0 {
          return;
        }
        if IsStartCommand(text) {
          AskClient(uid);
          return;
        }
        raised := HandleText(uid, text, env);
        return;
      }
      if !InMeetsThread(m, env.threadConfig) {
        return;
      }
      match ResolveUserId(m)
      case None =>
        if text != "" {
          replies := replies + [NoAuthor];
        }
      case Some(uid) =>
        if text == "" {
          return;
        }
        if IsStartCommand(text) {
          AskClient(uid);
          return;
        }
        raised := HandleText(uid, text, env);
    }
  }

  /** The calendar event `confirm:create` asks for. */
  function CreateCall(d: Draft, slot: (DateTime, DateTime)): Call {
    CalendarCreate(Title(d), slot.0, slot.1, NumericId(d.managerId), d.managerName, Note(d))
  }

  /** The calls of `confirm:create` once the slot is known: the calendar event, then, when
      it was created and the forum chat id is a number, the ledger row. */
  function BookCalls(u: int, d: Draft, slot: (DateTime, DateTime), env: Env): seq<Done>
    requires DateTimes.Valid(slot.0) && DateTimes.Valid(slot.1)
  {
    if env.created.Err? then [Done(CreateCall(d, slot), false)]
    else
      match ParseInt(env.forumChatId)
      case None => [Done(CreateCall(d, slot), true)]
      case Some(chat) =>
        [Done(CreateCall(d, slot), true),
         Done(LedgerAppend(LedgerArgs(u, d, slot.0, slot.1, env.created.value, chat, env.threadConfig)), env.ledgerOk)]
  }

  /** The messages of `confirm:create` once the slot is known. */
  function BookReplies(env: Env): seq<Reply> {
    if env.created.Err? then [CalendarCreateFailed]
    else if ParseInt(env.forumChatId).Some? && env.ledgerOk then [CreatedNotice(env.created.value)]
    else [LedgerWarning, CreatedNotice(env.created.value)]
  }

  /** Creating a meeting writes the calendar first and the ledger only after the calendar
      succeeded; the ledger row names the event the calendar returned, its ISO times are
      those of the event, and it is marked `created`. */
  lemma BookingOrder(u: int, d: Draft, slot: (DateTime, DateTime), env: Env)
    requires DateTimes.Valid(slot.0) && DateTimes.Valid(slot.1)
    ensures var t := BookCalls(u, d, slot, env);
      CalendarFirst(t) && t[0].call == CreateCall(d, slot) && t[0].ok == env.created.Ok?
      && !IsLedgerWrite(t[0].call)
      && (|t| == 2 <==> env.created.Ok? && ParseInt(env.forumChatId).Some?)
      && (|t| == 2 ==> t[1].call.LedgerAppend? && t[1].call.args.eventId == env.created.value
                       && t[1].call.args.status == "created"
                       && t[1].call.args.startIso == IsoFormat(slot.0) && t[1].call.args.endIso == IsoFormat(slot.1))
      && |t| <= 2
  {
    var t := BookCalls(u, d, slot, env);
    if |t| == 2 {
      SagaStep(t[0].call, t[1].call, env.ledgerOk);
      assert t == [Done(t[0].call, true), Done(t[1].call, env.ledgerOk)];
    } else {
      SagaStep(t[0].call, LedgerUpdate("", []), true);
      assert t == [Done(t[0].call, t[0].ok)];
    }
  }

  /** The new meeting is announced exactly when the calendar event was created, and a
      warning comes with it exactly when the ledger row was not written. */
  lemma BookingAnnounced(u: int, d: Draft, slot: (DateTime, DateTime), env: Env)
    requires DateTimes.Valid(slot.0) && DateTimes.Valid(slot.1)
    ensures var r := BookReplies(env);
      (env.created.Err? ==> r == [CalendarCreateFailed])
      && (env.created.Ok? ==> r[|r| - 1] == CreatedNotice(env.created.value)
                              && (LedgerWarning in r <==> !(|BookCalls(u, d, slot, env)| == 2 && env.ledgerOk)))
  {
  }
}
