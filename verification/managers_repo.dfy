/** The spreadsheet side: the Managers worksheet read as the list of managers, and the
    Meetings worksheet used as the ledger of meetings. A worksheet is the grid its
    `get_all_values()` returns (a header row, then data rows); the connection to the
    spreadsheet and the clock are outside the model. */
module ManagersRepo {
  import opened Wrappers
  import opened Text
  import opened Sorting
  import opened Seqs

  type Row = seq<string>

  /** A ledger row read back: header -> cell. */
  type Record = map<string, string>

  // ---------------------------------------------------------------- header normalisation

  /** `_norm`: trimmed, lower-cased, with every white-space character removed. */
  function Norm(s: string): string {
    RemoveSpaces(Lower(Strip(s)))
  }

  /** A normalised header holds no white space and no upper-case letter. */
  lemma NormShape(s: string)
    ensures forall c | c in Norm(s) :: !IsSpace(c) && LowerChar(c) == c
  {
    var l := Lower(Strip(s));
    forall c | c in Norm(s) ensures !IsSpace(c) && LowerChar(c) == c {
      assert c in l;
      var i :| 0 <= i < |l| && l[i] == c;
      LowerCharIdempotent(Strip(s)[i]);
    }
  }

  /** Text already free of white space and upper case is its own normal form. */
  lemma NormFixed(s: string)
    requires forall c | c in s :: !IsSpace(c) && LowerChar(c) == c
    ensures Norm(s) == s
  {
    if s != [] {
      assert s[0] in s && s[|s| - 1] in s;
    }
    StripTrimmed(s);
    LowerFixed(s);
    RemoveSpacesNone(s);
  }

  lemma NormIdempotent(s: string)
    ensures Norm(Norm(s)) == Norm(s)
  {
    NormShape(s);
    NormFixed(Norm(s));
  }

  /** `[_norm(h) for h in row]`. */
  function NormAll(row: Row): (r: Row)
    ensures |r| == |row|
  {
    if row == [] then [] else [Norm(row[0])] + NormAll(row[1..])
  }

  lemma {:induction false} NormAllAt(row: Row, i: nat)
    requires i < |row|
    ensures NormAll(row)[i] == Norm(row[i])
    decreases i
  {
    if i > 0 {
      NormAllAt(row[1..], i - 1);
    }
  }

  /** `list.index`: the first position holding `x`. */
  function IndexOf(s: seq<string>, x: string): (i: nat)
    requires x in s
    ensures i < |s| && s[i] == x && x !in s[..i]
  {
    if s[0] == x then 0
    else
      var j := IndexOf(s[1..], x);
      assert s[..j + 1] == [s[0]] + s[1..][..j];
      1 + j
  }

  /** The cell in column `i`, or "" past the end of the row. */
  function Cell(row: Row, i: nat): string {
    if i < |row| then row[i] else ""
  }

  // ---------------------------------------------------------------- managers

  datatype Manager = Manager(telegramId: string, name: string, username: string)

  const IdAliases: seq<string> := ["telegram_id", "telegramid", "tgid", "id"]
  const NameAliases: seq<string> := ["name", "manager", "fullname"]
  const UsernameAliases: seq<string> := ["username", "tgusername", "telegramusername", "@username", "user"]

  const MissingColumns := "Managers sheet must have telegram_id and name columns"

  /** The column of the first alias, in alias order, that occurs among the normalised headers. */
  function FirstAlias(headers: Row, aliases: seq<string>): (r: Option<nat>)
    ensures r.Some? ==> r.value < |headers|
  {
    if aliases == [] then None
    else if aliases[0] in headers then Some(IndexOf(headers, aliases[0]))
    else FirstAlias(headers, aliases[1..])
  }

  /** No column is found exactly when no alias occurs; a found column holds an alias. */
  lemma {:induction false} FirstAliasFound(headers: Row, aliases: seq<string>)
    ensures FirstAlias(headers, aliases).None? <==> forall a | a in aliases :: a !in headers
    ensures FirstAlias(headers, aliases).Some? ==> headers[FirstAlias(headers, aliases).value] in aliases
    decreases |aliases|
  {
    if aliases != [] && aliases[0] !in headers {
      FirstAliasFound(headers, aliases[1..]);
      assert forall a | a in aliases :: a == aliases[0] || a in aliases[1..];
    }
  }

  /** The first alias present wins, at its first column, whatever later aliases are present. */
  lemma {:induction false} FirstAliasWins(headers: Row, aliases: seq<string>, k: nat)
    requires k < |aliases| && aliases[k] in headers
    requires forall j | 0 <= j < k :: aliases[j] !in headers
    ensures FirstAlias(headers, aliases) == Some(IndexOf(headers, aliases[k]))
    decreases k
  {
    if k > 0 {
      assert aliases[0] !in headers;
      forall j | 0 <= j < k - 1 ensures aliases[1..][j] !in headers {
        assert aliases[1..][j] == aliases[j + 1];
      }
      FirstAliasWins(headers, aliases[1..], k - 1);
    }
  }

  /** One data row of the Managers sheet; None when both its id and name are blank. */
  function ManagerOf(row: Row, idCol: nat, nameCol: nat, userCol: Option<nat>): Option<Manager> {
    var tid := Strip(Cell(row, idCol));
    var name := Strip(Cell(row, nameCol));
    var user := if userCol.Some? then Strip(Cell(row, userCol.value)) else "";
    if tid == "" && name == "" then None else Some(Manager(tid, name, user))
  }

  /** The managers of the data rows, in row order. */
  function ManagersOf(rows: seq<Row>, idCol: nat, nameCol: nat, userCol: Option<nat>): seq<Manager> {
    if rows == [] then []
    else
      Entry(rows[0], idCol, nameCol, userCol) + ManagersOf(rows[1..], idCol, nameCol, userCol)
  }

  /** The managers one row contributes: none or one. */
  function Entry(row: Row, idCol: nat, nameCol: nat, userCol: Option<nat>): seq<Manager> {
    match ManagerOf(row, idCol, nameCol, userCol)
    case None => []
    case Some(m) => [m]
  }

  /** `get_managers` on the grid of the Managers sheet. */
  function Managers(values: seq<Row>): Result<seq<Manager>> {
    if |values| < 2 then Ok([])
    else
      var headers := NormAll(values[0]);
      var idCol := FirstAlias(headers, IdAliases);
      var nameCol := FirstAlias(headers, NameAliases);
      if idCol.None? || nameCol.None? then Err(MissingColumns)
      else Ok(ManagersOf(values[1..], idCol.value, nameCol.value, FirstAlias(headers, UsernameAliases)))
  }

  /** `get_managers` as the loop it is. */
  method GetManagers(values: seq<Row>) returns (r: Result<seq<Manager>>)
    ensures r == Managers(values)
  {
    if |values| < 2 {
      return Ok([]);
    }
    var headers := NormAll(values[0]);
    var idCol := FirstAlias(headers, IdAliases);
    var nameCol := FirstAlias(headers, NameAliases);
    var userCol := FirstAlias(headers, UsernameAliases);
    if idCol.None? || nameCol.None? {
      return Err(MissingColumns);
    }
    var managers := ReadManagers(values[1..], idCol.value, nameCol.value, userCol);
    return Ok(managers);
  }

  /** The loop of `get_managers` over the data rows, once the columns are known. */
  method ReadManagers(rows: seq<Row>, idCol: nat, nameCol: nat, userCol: Option<nat>) returns (managers: seq<Manager>)
    ensures managers == ManagersOf(rows, idCol, nameCol, userCol)
  {
    managers := [];
    var i := 0;
    while i < |rows|
      invariant 0 <= i <= |rows|
      invariant managers + ManagersOf(rows[i..], idCol, nameCol, userCol) == ManagersOf(rows, idCol, nameCol, userCol)
    {
      ManagersOfCons(rows, i, idCol, nameCol, userCol);
      AppendAssoc(managers, Entry(rows[i], idCol, nameCol, userCol), ManagersOf(rows[i + 1..], idCol, nameCol, userCol));
      var row := rows[i];
      var telegramId := if idCol < |row| then row[idCol] else "";
      var name := if nameCol < |row| then row[nameCol] else "";
      var username := "";
      if userCol.Some? && userCol.value < |row| {
        username := row[userCol.value];
      }
      telegramId := Strip(telegramId);
      name := Strip(name);
      username := Strip(username);
      if telegramId != "" || name != "" {
        managers := managers + [Manager(telegramId, name, username)];
      } else {
        AppendNil(managers);
      }
      i := i + 1;
    }
    assert rows[i..] == [];
    AppendNil(managers);
  }

  lemma ManagersOfCons(rows: seq<Row>, i: nat, idCol: nat, nameCol: nat, userCol: Option<nat>)
    requires i < |rows|
    ensures ManagersOf(rows[i..], idCol, nameCol, userCol)
         == Entry(rows[i], idCol, nameCol, userCol) + ManagersOf(rows[i + 1..], idCol, nameCol, userCol)
  {
    assert rows[i..][0] == rows[i] && rows[i..][1..] == rows[i + 1..];
  }

  /** No data row yields no managers; a missing id or name column is an error, whatever
      the rows hold; otherwise the rows are read with the first alias of each column. */
  lemma ManagersOutcome(values: seq<Row>)
    ensures |values| < 2 ==> Managers(values) == Ok([])
    ensures |values| >= 2 ==>
      (Managers(values).Err? <==>
         (forall a | a in IdAliases :: a !in NormAll(values[0]))
         || (forall a | a in NameAliases :: a !in NormAll(values[0])))
  {
    if |values| >= 2 {
      FirstAliasFound(NormAll(values[0]), IdAliases);
      FirstAliasFound(NormAll(values[0]), NameAliases);
    }
  }

  /** Rows are read independently: the managers of two blocks of rows are concatenated. */
  lemma {:induction false} ManagersOfAppend(a: seq<Row>, b: seq<Row>, idCol: nat, nameCol: nat, userCol: Option<nat>)
    ensures ManagersOf(a + b, idCol, nameCol, userCol)
         == ManagersOf(a, idCol, nameCol, userCol) + ManagersOf(b, idCol, nameCol, userCol)
    decreases |a|
  {
    if a == [] {
      assert a + b == b;
    } else {
      assert (a + b)[0] == a[0] && (a + b)[1..] == a[1..] + b;
      var h := Entry(a[0], idCol, nameCol, userCol);
      assert ManagersOf(a + b, idCol, nameCol, userCol) == h + ManagersOf(a[1..] + b, idCol, nameCol, userCol);
      ManagersOfAppend(a[1..], b, idCol, nameCol, userCol);
      AppendAssoc(h, ManagersOf(a[1..], idCol, nameCol, userCol), ManagersOf(b, idCol, nameCol, userCol));
    }
  }

  /** Every manager has trimmed fields and an id or a name, and no row yields two. */
  lemma {:induction false} ManagersOfEntries(rows: seq<Row>, idCol: nat, nameCol: nat, userCol: Option<nat>)
    ensures |ManagersOf(rows, idCol, nameCol, userCol)| <= |rows|
    ensures forall m | m in ManagersOf(rows, idCol, nameCol, userCol) ::
      Trimmed(m.telegramId) && Trimmed(m.name) && Trimmed(m.username) && (m.telegramId != "" || m.name != "")
    decreases |rows|
  {
    if rows != [] {
      ManagersOfEntries(rows[1..], idCol, nameCol, userCol);
      var row := rows[0];
      StripShape(Cell(row, idCol));
      StripShape(Cell(row, nameCol));
      if userCol.Some? {
        StripShape(Cell(row, userCol.value));
      }
    }
  }

  /** A row with a non-blank id or name contributes its trimmed cells. */
  lemma ManagersOfRow(row: Row, idCol: nat, nameCol: nat, userCol: Option<nat>)
    requires Strip(Cell(row, idCol)) != "" || Strip(Cell(row, nameCol)) != ""
    ensures ManagersOf([row], idCol, nameCol, userCol)
         == [Manager(Strip(Cell(row, idCol)), Strip(Cell(row, nameCol)),
                     if userCol.Some? then Strip(Cell(row, userCol.value)) else "")]
  {
    assert [row][1..] == [];
  }

  // ---------------------------------------------------------------- the Meetings ledger

  const MeetingsHeaders: Row := [
    "created_at", "created_by_id", "created_by_username", "chat_id", "thread_id",
    "client", "date", "time", "start_iso", "end_iso", "manager_name",
    "manager_username", "manager_telegram_id", "comment", "event_id", "status"]

  const HeaderMismatch := "Meetings sheet exists but its headers do not match"

  /** The check of `ensure_meetings_sheet` on a non-empty sheet: the normalised first row
      starts with the normalised headers. */
  predicate HeaderOk(first: Row) {
    |first| >= |MeetingsHeaders| && NormAll(first)[..|MeetingsHeaders|] == MeetingsHeaders
  }

  /** `ensure_meetings_sheet` succeeds on the sheet. */
  predicate Usable(values: seq<Row>) {
    values == [] || HeaderOk(values[0])
  }

  /** The grid after a successful `ensure_meetings_sheet`: an empty sheet gets the header row. */
  function Provisioned(values: seq<Row>): seq<Row> {
    if values == [] then [MeetingsHeaders] else values
  }

  /** Lower-case ASCII letters and underscores: the alphabet of the ledger's headers. */
  predicate Ident(s: string) {
    forall c | c in s :: c == '_' || 'a' <= c <= 'z'
  }

  lemma IdentNorm(s: string)
    requires Ident(s)
    ensures Norm(s) == s
  {
    NormFixed(s);
  }

  /** The headers are their own normal forms. */
  lemma HeadersNormal()
    ensures NormAll(MeetingsHeaders) == MeetingsHeaders
  {
    HeadersIdent();
    NormAllIdent(MeetingsHeaders);
  }

  lemma HeadersIdent()
    ensures forall i | 0 <= i < |MeetingsHeaders| :: Ident(MeetingsHeaders[i])
  {
    IdentA();
    IdentB();
    IdentC();
    IdentD();
  }

  lemma IdentA()
    ensures Ident(MeetingsHeaders[0]) && Ident(MeetingsHeaders[1]) && Ident(MeetingsHeaders[2]) && Ident(MeetingsHeaders[3])
  {
    assert Ident("created_at") && Ident("created_by_id") && Ident("created_by_username") && Ident("chat_id");
  }

  lemma IdentB()
    ensures Ident(MeetingsHeaders[4]) && Ident(MeetingsHeaders[5]) && Ident(MeetingsHeaders[6]) && Ident(MeetingsHeaders[7])
  {
    assert Ident("thread_id") && Ident("client") && Ident("date") && Ident("time");
  }

  lemma IdentC()
    ensures Ident(MeetingsHeaders[8]) && Ident(MeetingsHeaders[9]) && Ident(MeetingsHeaders[10]) && Ident(MeetingsHeaders[11])
  {
    assert Ident("start_iso") && Ident("end_iso") && Ident("manager_name") && Ident("manager_username");
  }

  lemma IdentD()
    ensures Ident(MeetingsHeaders[12]) && Ident(MeetingsHeaders[13]) && Ident(MeetingsHeaders[14]) && Ident(MeetingsHeaders[15])
  {
    assert Ident("manager_telegram_id") && Ident("comment") && Ident("event_id") && Ident("status");
  }

  lemma {:induction false} NormAllIdent(row: Row)
    requires forall i | 0 <= i < |row| :: Ident(row[i])
    ensures NormAll(row) == row
    decreases |row|
  {
    if row != [] {
      IdentNorm(row[0]);
      NormAllIdent(row[1..]);
      assert row == [row[0]] + row[1..];
    }
  }

  /** Provisioning is stable: the header row written to an empty sheet passes the check,
      so a second `ensure_meetings_sheet` writes nothing. */
  lemma ProvisionedUsable(values: seq<Row>)
    requires Usable(values)
    ensures Usable(Provisioned(values)) && Provisioned(Provisioned(values)) == Provisioned(values)
    ensures |Provisioned(values)| >= 1 && HeaderOk(Provisioned(values)[0])
  {
    if values == [] {
      HeadersPass();
    }
  }

  /** The header row passes its own check. */
  lemma HeadersPass()
    ensures HeaderOk(MeetingsHeaders)
  {
    HeadersNormal();
  }

  /** The arguments of `append_meeting`. */
  datatype MeetingArgs = MeetingArgs(
    createdById: int, createdByUsername: string, chatId: int, threadId: Option<int>,
    client: string, date: string, time: string, startIso: string, endIso: string,
    managerName: string, managerUsername: string, managerTelegramId: int,
    comment: string, eventId: string, status: string)

  /** The row `append_meeting` writes, in header order; `now` is the creation time stamp. */
  function MeetingRow(args: MeetingArgs, now: string): (row: Row)
    ensures |row| == |MeetingsHeaders|
  {
    [now, IntToString(args.createdById), args.createdByUsername, IntToString(args.chatId),
     if args.threadId.None? || args.threadId.value == 0 then "" else IntToString(args.threadId.value),
     args.client, args.date, args.time, args.startIso, args.endIso, args.managerName,
     args.managerUsername, IntToString(args.managerTelegramId), args.comment, args.eventId,
     if args.status == "" then "created" else args.status]
  }

  /** `{h: row[i] if i < len(row) else "" for i, h in enumerate(headers)}`: a later column
      with the same header overwrites an earlier one. */
  function RecordOf(headers: Row, row: Row): (r: Record)
    ensures forall h :: h in r <==> h in headers
    decreases |headers|
  {
    if headers == [] then map[]
    else
      var n := |headers| - 1;
      assert headers == headers[..n] + [headers[n]];
      RecordOf(headers[..n], row)[headers[n] := Cell(row, n)]
  }

  /** A header that occurs once maps to its own column's cell. */
  lemma {:induction false} RecordOfAt(headers: Row, row: Row, i: nat)
    requires i < |headers| && forall j | i < j < |headers| :: headers[j] != headers[i]
    ensures RecordOf(headers, row)[headers[i]] == Cell(row, i)
    decreases |headers|
  {
    var n := |headers| - 1;
    if i < n {
      RecordOfAt(headers[..n], row, i);
    }
  }

  /** The building of one record, as the loop over the headers it is. */
  method BuildRecord(headers: Row, row: Row) returns (item: Record)
    ensures item == RecordOf(headers, row)
  {
    item := map[];
    var i := 0;
    while i < |headers|
      invariant 0 <= i <= |headers|
      invariant item == RecordOf(headers[..i], row)
    {
      assert headers[..i + 1][..i] == headers[..i];
      item := item[headers[i] := if i < |row| then row[i] else ""];
      i := i + 1;
    }
    assert headers[..i] == headers;
  }

  /** The ledger's headers are pairwise distinct. */
  lemma HeadersDistinct()
    ensures forall i, j | 0 <= i < j < |MeetingsHeaders| :: MeetingsHeaders[i] != MeetingsHeaders[j]
  {
  }

  /** The appended row read back through the headers gives every cell under its own header. */
  lemma MeetingRecord(args: MeetingArgs, now: string)
    ensures forall i | 0 <= i < |MeetingsHeaders| ::
      RecordOf(MeetingsHeaders, MeetingRow(args, now))[MeetingsHeaders[i]] == MeetingRow(args, now)[i]
  {
    HeadersDistinct();
    forall i | 0 <= i < |MeetingsHeaders|
      ensures RecordOf(MeetingsHeaders, MeetingRow(args, now))[MeetingsHeaders[i]] == MeetingRow(args, now)[i]
    {
      RecordOfAt(MeetingsHeaders, MeetingRow(args, now), i);
    }
  }

  /** The id cells of the appended row are numerals that parse back to the ids (see
      MeetingRecord for the header each cell sits under). */
  lemma MeetingRowIds(args: MeetingArgs, now: string)
    ensures var row := MeetingRow(args, now);
      && ParseInt(row[1]) == Some(args.createdById)
      && ParseInt(row[3]) == Some(args.chatId)
      && ParseInt(row[12]) == Some(args.managerTelegramId)
  {
    var row := MeetingRow(args, now);
    assert row[1] == IntToString(args.createdById);
    assert row[3] == IntToString(args.chatId);
    assert row[12] == IntToString(args.managerTelegramId);
    ParseIntToString(args.createdById);
    ParseIntToString(args.chatId);
    ParseIntToString(args.managerTelegramId);
  }

  /** No thread, or thread 0, is a blank `thread_id` cell; any other thread parses back. */
  lemma MeetingRowThread(args: MeetingArgs, now: string)
    ensures var cell := MeetingRow(args, now)[4];
      && (cell == "" <==> args.threadId.None? || args.threadId.value == 0)
      && (cell != "" ==> ParseInt(cell) == args.threadId)
  {
    if args.threadId.Some? && args.threadId.value != 0 {
      ParseIntToString(args.threadId.value);
    }
  }

  /** The status cell is never blank: a blank status argument becomes `created`. */
  lemma MeetingRowStatus(args: MeetingArgs, now: string)
    ensures var row := MeetingRow(args, now);
      row[15] != "" && (args.status != "" ==> row[15] == args.status)
  {
  }

  /** The row's cell in `col`, trimmed, is `x`. */
  predicate CellIs(row: Row, col: nat, x: string) {
    col < |row| && Strip(row[col]) == x
  }

  /** The first data row whose trimmed cell in `col` is `x`. */
  function FirstMatch(rows: seq<Row>, col: nat, x: string): (r: Option<nat>)
    ensures r.Some? ==> r.value < |rows| && CellIs(rows[r.value], col, x)
                        && forall k | 0 <= k < r.value :: !CellIs(rows[k], col, x)
    ensures r.None? ==> forall k | 0 <= k < |rows| :: !CellIs(rows[k], col, x)
    decreases |rows|
  {
    if rows == [] then None
    else if CellIs(rows[0], col, x) then Some(0)
    else
      match FirstMatch(rows[1..], col, x)
      case None => None
      case Some(k) => Some(k + 1)
  }

  /** The column `name` has among the normalised headers, if any. */
  function Column(values: seq<Row>, name: string): Option<nat>
    requires |values| >= 1
  {
    var hn := NormAll(values[0]);
    if name in hn then Some(IndexOf(hn, name)) else None
  }

  /** The position in the grid of the row of `event_id`, the target of an update. */
  function TargetRow(values: seq<Row>, eventId: string): (r: Option<nat>)
    ensures r.Some? ==> 1 <= r.value < |values|
  {
    if |values| < 2 then None
    else
      match Column(values, "event_id")
      case None => None
      case Some(col) =>
        match FirstMatch(values[1..], col, Strip(eventId))
        case None => None
        case Some(k) => Some(k + 1)
  }

  /** `get_meeting_by_event_id` on a provisioned grid. */
  function LookupMeeting(values: seq<Row>, eventId: string): Option<Record> {
    match TargetRow(values, eventId)
    case None => None
    case Some(t) => Some(RecordOf(values[0], values[t]))
  }

  /** A meeting appended to a ledger with the standard headers, whose event id no earlier
      row carries, is found again by that id, with every argument in its column. */
  lemma AppendedFound(values: seq<Row>, row: Row, eventId: string, col: nat)
    requires |values| >= 1 && Column(values, "event_id") == Some(col)
    requires CellIs(row, col, Strip(eventId))
    requires forall k | 1 <= k < |values| :: !CellIs(values[k], col, Strip(eventId))
    ensures LookupMeeting(values + [row], eventId) == Some(RecordOf(values[0], row))
  {
    var all := values + [row];
    assert all[0] == values[0] && all[|values|] == row;
    var rows := values[1..];
    assert all[1..] == rows + [row];
    forall k | 0 <= k < |rows| ensures !CellIs(rows[k], col, Strip(eventId)) {
      assert rows[k] == values[k + 1];
    }
    FirstMatchLast(rows, row, col, Strip(eventId));
  }

  /** `append_meeting` followed by `get_meeting_by_event_id` on a provisioned ledger (one
      whose header row passed the check, see ProvisionedUsable): the new meeting is found,
      unless an earlier row carries its event id. */
  lemma AppendThenLookup(values: seq<Row>, args: MeetingArgs, now: string)
    requires |values| >= 1 && HeaderOk(values[0])
    requires forall k | 1 <= k < |values| :: !CellIs(values[k], 14, Strip(args.eventId))
    ensures LookupMeeting(values + [MeetingRow(args, now)], args.eventId)
         == Some(RecordOf(values[0], MeetingRow(args, now)))
  {
    EventIdColumn(values);
    var row := MeetingRow(args, now);
    assert row[14] == args.eventId;
    AppendedFound(values, row, args.eventId, 14);
  }

  /** A row appended behind rows none of which matches is the first match. */
  lemma {:induction false} FirstMatchLast(rows: seq<Row>, row: Row, col: nat, x: string)
    requires CellIs(row, col, x) && forall k | 0 <= k < |rows| :: !CellIs(rows[k], col, x)
    ensures FirstMatch(rows + [row], col, x) == Some(|rows|)
    decreases |rows|
  {
    if rows == [] {
      assert [] + [row] == [row];
    } else {
      assert (rows + [row])[1..] == rows[1..] + [row];
      FirstMatchLast(rows[1..], row, col, x);
    }
  }

  /** In a ledger that passes the header check, each of the sixteen headers is found at its
      own position, whatever columns follow them. */
  lemma HeaderColumn(values: seq<Row>, i: nat)
    requires |values| >= 1 && HeaderOk(values[0]) && i < |MeetingsHeaders|
    ensures Column(values, MeetingsHeaders[i]) == Some(i)
  {
    HeadersDistinct();
    PrefixIndex(NormAll(values[0]), MeetingsHeaders, i);
  }

  /** In particular the `event_id` column is the fifteenth and the `date` column the seventh. */
  lemma EventIdColumn(values: seq<Row>)
    requires |values| >= 1 && HeaderOk(values[0])
    ensures Column(values, "event_id") == Some(14) && Column(values, "date") == Some(6)
  {
    HeaderColumn(values, 14);
    HeaderColumn(values, 6);
  }

  lemma PrefixIndex(hn: Row, h: Row, i: nat)
    requires |h| <= |hn| && hn[..|h|] == h && i < |h|
    requires forall j | 0 <= j < i :: h[j] != h[i]
    ensures h[i] in hn && IndexOf(hn, h[i]) == i
  {
    assert hn[i] == h[i];
    IndexOfAt(hn, i);
  }

  lemma {:induction false} IndexOfAt(s: seq<string>, i: nat)
    requires i < |s| && forall j | 0 <= j < i :: s[j] != s[i]
    ensures IndexOf(s, s[i]) == i
  {
    var k := IndexOf(s, s[i]);
    assert s[i] in s[..i + 1];
  }

  // ---------------------------------------------------------------- update in place

  /** `ws.update_cell` on one row: a cell past the end extends the row with blank cells. */
  function SetCell(row: Row, col: nat, v: string): (r: Row)
    ensures |r| == if col < |row| then |row| else col + 1
    ensures r[col] == v && forall c | 0 <= c < |row| && c != col :: r[c] == row[c]
  {
    if col < |row| then row[col := v] else row + seq(col - |row|, _ => "") + [v]
  }

  /** The column an update key names: its normal form among the normalised headers. */
  function Target(hn: Row, key: string): Option<nat> {
    var kn := Norm(key);
    if kn in hn then Some(IndexOf(hn, kn)) else None
  }

  /** One `ws.update_cell` of the update loop; a key naming no column changes nothing. */
  function Apply(row: Row, hn: Row, u: (string, string)): (r: Row)
    ensures |r| >= |row|
  {
    match Target(hn, u.0)
    case None => row
    case Some(c) => SetCell(row, c, u.1)
  }

  /** The updates applied in order to one row. */
  function PatchRow(row: Row, hn: Row, updates: seq<(string, string)>): (r: Row)
    ensures |r| >= |row|
    decreases |updates|
  {
    if updates == [] then row else PatchRow(Apply(row, hn, updates[0]), hn, updates[1..])
  }

  /** A cell no update names keeps its value. */
  lemma {:induction false} PatchRowKeeps(row: Row, hn: Row, updates: seq<(string, string)>, c: nat)
    requires c < |row|
    requires forall k | 0 <= k < |updates| :: Target(hn, updates[k].0) != Some(c)
    ensures PatchRow(row, hn, updates)[c] == row[c]
    decreases |updates|
  {
    if updates != [] {
      var next := Apply(row, hn, updates[0]);
      assert next[c] == row[c];
      forall k | 0 <= k < |updates[1..]| ensures Target(hn, updates[1..][k].0) != Some(c) {
        assert updates[1..][k] == updates[k + 1];
      }
      PatchRowKeeps(next, hn, updates[1..], c);
    }
  }

  /** The cell a column's last update names ends up holding that update's value. */
  lemma {:induction false} PatchRowSets(row: Row, hn: Row, updates: seq<(string, string)>, j: nat, c: nat)
    requires j < |updates| && Target(hn, updates[j].0) == Some(c)
    requires forall k | j < k < |updates| :: Target(hn, updates[k].0) != Some(c)
    ensures c < |PatchRow(row, hn, updates)| && PatchRow(row, hn, updates)[c] == updates[j].1
    decreases |updates|
  {
    var next := Apply(row, hn, updates[0]);
    var rest := updates[1..];
    if j > 0 {
      forall k | j - 1 < k < |rest| ensures Target(hn, rest[k].0) != Some(c) {
        assert rest[k] == updates[k + 1];
      }
      assert rest[j - 1] == updates[j];
      PatchRowSets(next, hn, rest, j - 1, c);
    } else {
      assert next[c] == updates[0].1;
      forall k | 0 <= k < |rest| ensures Target(hn, rest[k].0) != Some(c) {
        assert rest[k] == updates[k + 1];
      }
      PatchRowKeeps(next, hn, rest, c);
    }
  }

  /** `update_meeting_by_event_id` on a provisioned grid: the target row patched, or the
      grid unchanged when no row has the event id. */
  function PatchSheet(values: seq<Row>, eventId: string, updates: seq<(string, string)>): (r: seq<Row>)
    ensures |r| == |values|
    ensures forall k | 0 <= k < |values| && TargetRow(values, eventId) != Some(k) :: r[k] == values[k]
  {
    match TargetRow(values, eventId)
    case None => values
    case Some(t) => values[t := PatchRow(values[t], NormAll(values[0]), updates)]
  }

  /** In the row that changes, a cell keeps its value unless an update names its column,
      and a named column holds the value of the last update that names it. */
  lemma PatchSheetCells(values: seq<Row>, eventId: string, updates: seq<(string, string)>, t: nat, c: nat)
    requires TargetRow(values, eventId) == Some(t)
    ensures c < |values[t]| && (forall k | 0 <= k < |updates| :: Target(NormAll(values[0]), updates[k].0) != Some(c))
      ==> c < |PatchSheet(values, eventId, updates)[t]| && PatchSheet(values, eventId, updates)[t][c] == values[t][c]
    ensures forall j | 0 <= j < |updates| && Target(NormAll(values[0]), updates[j].0) == Some(c)
      && (forall k | j < k < |updates| :: Target(NormAll(values[0]), updates[k].0) != Some(c))
      :: c < |PatchSheet(values, eventId, updates)[t]| && PatchSheet(values, eventId, updates)[t][c] == updates[j].1
  {
    var hn := NormAll(values[0]);
    var p := PatchSheet(values, eventId, updates);
    assert p[t] == PatchRow(values[t], hn, updates);
    if c < |values[t]| && (forall k | 0 <= k < |updates| :: Target(hn, updates[k].0) != Some(c)) {
      PatchRowKeeps(values[t], hn, updates, c);
    }
    forall j | 0 <= j < |updates| && Target(hn, updates[j].0) == Some(c)
      && (forall k | j < k < |updates| :: Target(hn, updates[k].0) != Some(c))
      ensures c < |p[t]| && p[t][c] == updates[j].1
    {
      PatchRowSets(values[t], hn, updates, j, c);
    }
  }

  // ---------------------------------------------------------------- listing by date

  /** The records of the data rows whose trimmed date cell is `date`, in row order. */
  function DateRecords(headers: Row, rows: seq<Row>, col: nat, date: string): seq<Record> {
    if rows == [] then []
    else (if CellIs(rows[0], col, date) then [RecordOf(headers, rows[0])] else [])
         + DateRecords(headers, rows[1..], col, date)
  }

  /** `(x.get("time") or "").strip()`, the sort key of the listing. */
  function TimeKey(r: Record): string {
    if "time" in r then Strip(r["time"]) else ""
  }

  /** `list_meetings_for_date` on a provisioned grid. */
  function MeetingsForDate(values: seq<Row>, date: string): seq<Record> {
    if |values| < 2 then []
    else
      match Column(values, "date")
      case None => []
      case Some(col) => StableSortBy(DateRecords(values[0], values[1..], col, date), TimeKey)
  }

  /** Exactly the records of the matching rows, none twice, ordered by time, and rows with
      equal times in sheet order. */
  lemma MeetingsForDateSorted(values: seq<Row>, date: string, col: nat, k: string)
    requires |values| >= 2 && Column(values, "date") == Some(col)
    ensures var out := MeetingsForDate(values, date);
      var sel := DateRecords(values[0], values[1..], col, date);
      SortedBy(out, TimeKey) && multiset(out) == multiset(sel)
      && WithKey(out, TimeKey, k) == WithKey(sel, TimeKey, k)
  {
    var sel := DateRecords(values[0], values[1..], col, date);
    SortSorted(sel, TimeKey);
    SortPermutation(sel, TimeKey);
    SortStable(sel, TimeKey, k);
  }

  /** The selection keeps a row exactly when its trimmed date cell is `date`, in order. */
  lemma {:induction false} DateRecordsAppend(headers: Row, a: seq<Row>, b: seq<Row>, col: nat, date: string)
    ensures DateRecords(headers, a + b, col, date)
         == DateRecords(headers, a, col, date) + DateRecords(headers, b, col, date)
    decreases |a|
  {
    if a == [] {
      assert a + b == b;
    } else {
      assert (a + b)[0] == a[0] && (a + b)[1..] == a[1..] + b;
      var h := if CellIs(a[0], col, date) then [RecordOf(headers, a[0])] else [];
      assert DateRecords(headers, a + b, col, date) == h + DateRecords(headers, a[1..] + b, col, date);
      DateRecordsAppend(headers, a[1..], b, col, date);
      AppendAssoc(h, DateRecords(headers, a[1..], col, date), DateRecords(headers, b, col, date));
    }
  }

  lemma DateRecordsRow(headers: Row, row: Row, col: nat, date: string)
    ensures DateRecords(headers, [row], col, date)
         == if col < |row| && Strip(row[col]) == date then [RecordOf(headers, row)] else []
  {
    assert [row][1..] == [];
  }

  lemma DateRecordsCons(headers: Row, rows: seq<Row>, i: nat, col: nat, date: string)
    requires i < |rows|
    ensures DateRecords(headers, rows[i..], col, date)
         == (if CellIs(rows[i], col, date) then [RecordOf(headers, rows[i])] else [])
            + DateRecords(headers, rows[i + 1..], col, date)
  {
    assert rows[i..][0] == rows[i] && rows[i..][1..] == rows[i + 1..];
  }

  /** The filtering loop of `list_meetings_for_date`. */
  method SelectByDate(headers: Row, rows: seq<Row>, col: nat, date: string) returns (res: seq<Record>)
    ensures res == DateRecords(headers, rows, col, date)
  {
    res := [];
    var i := 0;
    while i < |rows|
      invariant 0 <= i <= |rows|
      invariant res + DateRecords(headers, rows[i..], col, date) == DateRecords(headers, rows, col, date)
    {
      DateRecordsCons(headers, rows, i, col, date);
      var keep := if CellIs(rows[i], col, date) then [RecordOf(headers, rows[i])] else [];
      AppendAssoc(res, keep, DateRecords(headers, rows[i + 1..], col, date));
      if |rows[i]| > col && Strip(rows[i][col]) == date {
        var item := BuildRecord(headers, rows[i]);
        res := res + [item];
      } else {
        AppendNil(res);
      }
      i := i + 1;
    }
    assert rows[i..] == [];
    AppendNil(res);
  }

  /** The search loop of `get_meeting_by_event_id` and `update_meeting_by_event_id`: the
      first data row whose trimmed cell in `col` is `key`. */
  method FindRow(rows: seq<Row>, col: nat, key: string) returns (r: Option<nat>)
    ensures r == FirstMatch(rows, col, key)
  {
    var i := 0;
    while i < |rows|
      invariant 0 <= i <= |rows|
      invariant forall k | 0 <= k < i :: !CellIs(rows[k], col, key)
    {
      if |rows[i]| > col && Strip(rows[i][col]) == key {
        FirstMatchAt(rows, col, key, i);
        return Some(i);
      }
      i := i + 1;
    }
    FirstMatchNone(rows, col, key);
    return None;
  }

  /** The first match is the one no earlier row shares. */
  lemma {:induction false} FirstMatchAt(rows: seq<Row>, col: nat, key: string, i: nat)
    requires i < |rows| && CellIs(rows[i], col, key)
    requires forall k | 0 <= k < i :: !CellIs(rows[k], col, key)
    ensures FirstMatch(rows, col, key) == Some(i)
    decreases i
  {
    if i > 0 {
      forall k | 0 <= k < i - 1 ensures !CellIs(rows[1..][k], col, key) {
        assert rows[1..][k] == rows[k + 1];
      }
      assert rows[1..][i - 1] == rows[i];
      FirstMatchAt(rows[1..], col, key, i - 1);
    }
  }

  lemma {:induction false} FirstMatchNone(rows: seq<Row>, col: nat, key: string)
    requires forall k | 0 <= k < |rows| :: !CellIs(rows[k], col, key)
    ensures FirstMatch(rows, col, key) == None
    decreases |rows|
  {
    if rows != [] {
      forall k | 0 <= k < |rows| - 1 ensures !CellIs(rows[1..][k], col, key) {
        assert rows[1..][k] == rows[k + 1];
      }
      FirstMatchNone(rows[1..], col, key);
    }
  }

  /** The header check of `ensure_meetings_sheet` on a non-empty sheet. */
  method CheckHeaders(first: Row) returns (ok: bool)
    ensures ok <==> HeaderOk(first)
  {
    var firstNorm := NormAll(first);
    var expected := NormAll(MeetingsHeaders);
    HeadersNormal();
    ok := |firstNorm| >= |expected| && firstNorm[..|expected|] == expected;
  }

  // ---------------------------------------------------------------- the worksheet

  /** The Meetings worksheet, updated in place by the ledger operations. */
  class MeetingsSheet {
    var values: seq<Row>

    constructor (values: seq<Row>)
      ensures this.values == values
    {
      this.values := values;
    }

    /** `ensure_meetings_sheet`: an empty sheet gets the header row; a sheet whose first
        row fails the check is left alone and false returned (the source raises). */
    method Ensure() returns (ok: bool)
      modifies this
      ensures ok <==> Usable(old(values))
      ensures values == if ok then Provisioned(old(values)) else old(values)
    {
      if values == [] {
        values := values + [MeetingsHeaders];
        return true;
      }
      ok := CheckHeaders(values[0]);
    }

    /** `append_meeting`: exactly one row, after provisioning. */
    method AppendMeeting(args: MeetingArgs, now: string) returns (ok: bool)
      modifies this
      ensures ok <==> Usable(old(values))
      ensures values == if ok then Provisioned(old(values)) + [MeetingRow(args, now)] else old(values)
    {
      ok := Ensure();
      if !ok {
        return;
      }
      var row := MeetingRow(args, now);
      values := values + [row];
    }

    /** `get_meeting_by_event_id`; Err where `ensure_meetings_sheet` raises. */
    method GetMeetingByEventId(eventId: string) returns (r: Result<Option<Record>>)
      modifies this
      ensures r.Ok? <==> Usable(old(values))
      ensures values == if r.Ok? then Provisioned(old(values)) else old(values)
      ensures r.Ok? ==> r.value == LookupMeeting(values, eventId)
    {
      var ok := Ensure();
      if !ok {
        return Err(HeaderMismatch);
      }
      if |values| < 2 {
        return Ok(None);
      }
      var hn := NormAll(values[0]);
      if "event_id" !in hn {
        return Ok(None);
      }
      var col := IndexOf(hn, "event_id");
      var m := FindRow(values[1..], col, Strip(eventId));
      if m.None? {
        return Ok(None);
      }
      var item := BuildRecord(values[0], values[m.value + 1]);
      return Ok(Some(item));
    }

    /** `update_meeting_by_event_id`: the first matching row patched in place, true iff
        one matched; Err where `ensure_meetings_sheet` raises. */
    method UpdateMeetingByEventId(eventId: string, updates: seq<(string, string)>) returns (r: Result<bool>)
      modifies this
      ensures r.Ok? <==> Usable(old(values))
      ensures r.Ok? ==> (r.value <==> TargetRow(Provisioned(old(values)), eventId).Some?)
      ensures values == if r.Ok? then PatchSheet(Provisioned(old(values)), eventId, updates) else old(values)
    {
      var ok := Ensure();
      if !ok {
        return Err(HeaderMismatch);
      }
      if |values| < 2 {
        return Ok(false);
      }
      var hn := NormAll(values[0]);
      if "event_id" !in hn {
        return Ok(false);
      }
      var col := IndexOf(hn, "event_id");
      var m := FindRow(values[1..], col, Strip(eventId));
      if m.None? {
        return Ok(false);
      }
      PatchTarget(m.value + 1, hn, updates);
      return Ok(true);
    }

    /** The cell-writing loop of `update_meeting_by_event_id`: each update whose key names a
        column writes that cell of row `target`. */
    method PatchTarget(target: nat, hn: Row, updates: seq<(string, string)>)
      requires target < |values|
      modifies this
      ensures values == old(values)[target := PatchRow(old(values)[target], hn, updates)]
    {
      ghost var before := values;
      var j := 0;
      while j < |updates|
        invariant 0 <= j <= |updates|
        invariant |values| == |before|
        invariant values == before[target := values[target]]
        invariant PatchRow(values[target], hn, updates[j..]) == PatchRow(before[target], hn, updates)
      {
        assert updates[j..][0] == updates[j] && updates[j..][1..] == updates[j + 1..];
        var kn := Norm(updates[j].0);
        if kn in hn {
          var c := IndexOf(hn, kn);
          values := values[target := SetCell(values[target], c, updates[j].1)];
        }
        j := j + 1;
      }
    }

    /** `list_meetings_for_date`; Err where `ensure_meetings_sheet` raises. */
    method ListMeetingsForDate(date: string) returns (r: Result<seq<Record>>)
      modifies this
      ensures r.Ok? <==> Usable(old(values))
      ensures values == if r.Ok? then Provisioned(old(values)) else old(values)
      ensures r.Ok? ==> r.value == MeetingsForDate(values, date)
    {
      var ok := Ensure();
      if !ok {
        return Err(HeaderMismatch);
      }
      if |values| < 2 {
        return Ok([]);
      }
      var hn := NormAll(values[0]);
      if "date" !in hn {
        return Ok([]);
      }
      var col := IndexOf(hn, "date");
      var res := SelectByDate(values[0], values[1..], col, date);
      res := StableSortBy(res, TimeKey);
      return Ok(res);
    }
  }
}
