/** The pure helpers of the bot: reading a typed date or time, building the meeting's
    date-time from them, telling who wrote a message and whether it belongs to the
    meetings thread, and the manager buttons together with the payload they carry. */
module BotInput {
  import opened Wrappers
  import opened Text
  import opened DateTimes
  import ManagersRepo
  import Seqs

  // ---------------------------------------------------------------- typed time

  /** The strings `^([01]\d|2[0-3]):([0-5]\d)$` matches. */
  predicate IsClock(t: string) {
    |t| == 5 && t[2] == ':' && IsDigit(t[1]) && IsDigit(t[4])
    && (t[0] == '0' || t[0] == '1' || (t[0] == '2' && '0' <= t[1] <= '3'))
    && '0' <= t[3] <= '5'
  }

  /** `parse_time_input`: the trimmed text when it is a 24-hour `HH:MM`, else None. */
  function ParseTimeInput(s: string): (r: Option<string>)
    ensures r.Some? ==> r.value == Strip(s) && |r.value| == 5
  {
    var t := Strip(s);
    if IsClock(t) then Some(t) else None
  }

  /** Two ASCII digits read as a number. */
  lemma TwoDigits(a: string)
    requires |a| == 2 && IsDigit(a[0]) && IsDigit(a[1])
    ensures DigitsValue(a) == 10 * (a[0] as int - '0' as int) + (a[1] as int - '0' as int)
  {
    var b := a[..1];
    assert b == [a[0]] && b[..0] == [] && a[1] != '_' && b[0] != '_';
    assert DigitsValue(b) == a[0] as int - '0' as int;
  }

  /** A time is accepted exactly when it is two digits, a colon and two digits naming an
      hour of the day and a minute of the hour. */
  lemma ParseTimeSpec(s: string)
    ensures ParseTimeInput(s).Some? <==>
      var t := Strip(s);
      |t| == 5 && t[2] == ':' && IsDigits(t[..2]) && IsDigits(t[3..])
      && ValidTime(DigitsValue(t[..2]), DigitsValue(t[3..]))
  {
    var t := Strip(s);
    if |t| == 5 && IsDigit(t[0]) && IsDigit(t[1]) && IsDigit(t[3]) && IsDigit(t[4]) {
      assert t[..2][0] == t[0] && t[..2][1] == t[1];
      assert t[3..][0] == t[3] && t[3..][1] == t[4];
      TwoDigits(t[..2]);
      TwoDigits(t[3..]);
    } else if |t| == 5 {
      assert !IsDigits(t[..2]) || !IsDigits(t[3..]) by {
        if !IsDigit(t[0]) { assert t[..2][0] in t[..2]; }
        else if !IsDigit(t[1]) { assert t[..2][1] in t[..2]; }
        else if !IsDigit(t[3]) { assert t[3..][0] in t[3..]; }
        else { assert t[3..][1] in t[3..]; }
      }
    }
  }

  // ---------------------------------------------------------------- typed date

  /** `^(\d{2})\.(\d{2})(?:\.(\d{4}))?$`: `DD.MM` or `DD.MM.YYYY`. */
  predicate DateShape(t: string) {
    |t| >= 5 && IsDigit(t[0]) && IsDigit(t[1]) && t[2] == '.' && IsDigit(t[3]) && IsDigit(t[4])
    && (|t| == 5 || (|t| == 10 && t[5] == '.' && IsDigits(t[6..])))
  }

  /** `parse_date_input`: `DD.MM.YYYY` for a real calendar date, the year defaulting to the
      current one, or None. */
  function ParseDateInput(s: string, currentYear: nat): (r: Option<string>)
    ensures r.Some? ==> |Strip(s)| >= 5 && |r.value| > 6 && r.value[..5] == Strip(s)[..5]
  {
    var t := Strip(s);
    if !DateShape(t) then None
    else
      var dd := t[..2];
      var mm := t[3..5];
      var yyyy := if |t| == 10 then t[6..] else NatToString(currentYear);
      assert IsDigits(dd) by { assert dd[0] == t[0] && dd[1] == t[1]; }
      assert IsDigits(mm) by { assert mm[0] == t[3] && mm[1] == t[4]; }
      if ValidDate(DigitsValue(yyyy), DigitsValue(mm), DigitsValue(dd)) then
        Some(dd + "." + mm + "." + yyyy)
      else None
  }

  /** Splitting `DD.MM.YYYY` on dots gives back its three fields. */
  lemma DateFields(dd: string, mm: string, yyyy: string)
    requires '.' !in dd && '.' !in mm && '.' !in yyyy
    ensures SplitOn(dd + "." + mm + "." + yyyy, '.') == [dd, mm, yyyy]
  {
    SplitNoSep(yyyy, '.');
    SplitPrefix(mm, yyyy, '.');
    assert dd + "." + mm + "." + yyyy == dd + ['.'] + (mm + ['.'] + yyyy);
    SplitPrefix(dd, mm + ['.'] + yyyy, '.');
  }

  /** `int()` reads a string of ASCII digits as its value. */
  lemma DigitsParse(s: string)
    requires IsDigits(s)
    ensures ParseInt(s) == Some(DigitsValue(s))
  {
    assert s[0] in s && s[|s| - 1] in s;
    assert !IsSpace(s[0]) && !IsSpace(s[|s| - 1]);
    StripTrimmed(s);
    forall i | 0 <= i < |s| - 1
      ensures !(s[i] == '_' && s[i + 1] == '_')
    {
      assert s[i] in s;
    }
  }

  /** What the date parser accepts carries a date that exists: its three dot-separated
      fields are digit strings naming a valid day, month and year. The year is the one
      typed or, when none is, the current year. */
  lemma ParsedDateValid(s: string, currentYear: nat)
    requires ParseDateInput(s, currentYear).Some?
    ensures var p := SplitOn(ParseDateInput(s, currentYear).value, '.');
      |p| == 3 && IsDigits(p[0]) && IsDigits(p[1]) && IsDigits(p[2])
      && ValidDate(DigitsValue(p[2]), DigitsValue(p[1]), DigitsValue(p[0]))
      && p[2] == (if |Strip(s)| == 5 then NatToString(currentYear) else Strip(s)[6..])
  {
    var t := Strip(s);
    var dd := t[..2];
    var mm := t[3..5];
    var yyyy := if |t| == 10 then t[6..] else NatToString(currentYear);
    assert dd[0] == t[0] && dd[1] == t[1];
    assert mm[0] == t[3] && mm[1] == t[4];
    assert IsDigits(dd) && IsDigits(mm) && IsDigits(yyyy);
    assert '.' !in dd && '.' !in mm && '.' !in yyyy;
    DateFields(dd, mm, yyyy);
  }

  /** A date the parser produced is accepted again unchanged. */
  lemma ParseDateIdempotent(s: string, currentYear: nat, laterYear: nat)
    requires ParseDateInput(s, currentYear).Some?
    requires |Strip(s)| == 5 ==> 1000 <= currentYear <= 9999
    ensures ParseDateInput(ParseDateInput(s, currentYear).value, laterYear) == ParseDateInput(s, currentYear)
  {
    var t := Strip(s);
    var d := ParseDateInput(s, currentYear).value;
    var yyyy := if |t| == 10 then t[6..] else NatToString(currentYear);
    if |t| == 5 {
      FourDigitYear(currentYear);
    }
    assert |d| == 10;
    assert d[..2] == t[..2] && d[3..5] == t[3..5] && d[6..] == yyyy;
    assert d[0] == t[0] && d[1] == t[1] && d[3] == t[3] && d[4] == t[4];
    assert d[9] == yyyy[3] && yyyy[3] in yyyy;
    assert Trimmed(d);
    StripTrimmed(d);
  }

  /** A year from 1000 to 9999 is written with four digits. */
  lemma FourDigitYear(n: nat)
    requires 1000 <= n <= 9999
    ensures |NatToString(n)| == 4
  {
    assert NatToString(n) == NatToString(n / 10) + [DigitChar(n % 10)];
    assert NatToString(n / 10) == NatToString(n / 100) + [DigitChar(n / 10 % 10)];
    assert NatToString(n / 100) == NatToString(n / 1000) + [DigitChar(n / 100 % 10)];
  }

  /** The number two ASCII digits at `i` and `i + 1` stand for. */
  function TwoDigitValue(t: string, i: nat): int
    requires i + 1 < |t|
  {
    10 * (t[i] as int - '0' as int) + (t[i + 1] as int - '0' as int)
  }

  /** A typed date is accepted exactly when, trimmed, it is `DD.MM` or `DD.MM.YYYY` naming
      a real day, the year defaulting to the current one; what is stored is the trimmed
      text, with the current year appended when none was typed. */
  lemma ParseDateSpec(s: string, currentYear: nat)
    ensures var t := Strip(s);
      ParseDateInput(s, currentYear).Some? <==>
        DateShape(t)
        && ValidDate(if |t| == 10 then DigitsValue(t[6..]) else currentYear, TwoDigitValue(t, 3), TwoDigitValue(t, 0))
    ensures var t := Strip(s);
      ParseDateInput(s, currentYear).Some? ==>
        ParseDateInput(s, currentYear).value == if |t| == 10 then t else t + "." + NatToString(currentYear)
  {
    var t := Strip(s);
    if DateShape(t) {
      var dd := t[..2];
      var mm := t[3..5];
      assert dd[0] == t[0] && dd[1] == t[1];
      assert mm[0] == t[3] && mm[1] == t[4];
      TwoDigits(dd);
      TwoDigits(mm);
      NatToStringValue(currentYear);
      assert t[..5] == dd + "." + mm;
      if |t| == 10 {
        assert t == dd + "." + mm + "." + t[6..];
      }
    }
  }

  // ---------------------------------------------------------------- date-time

  /** `build_dt_from_inputs`: `DD.MM.YYYY` and `HH:MM` read with `split` and `int()` into
      a date-time, or the ValueError Python raises (wrong number of fields, a field
      that is not an integer, a date or time out of range). */
  function BuildDt(dateStr: string, timeStr: string): (r: Result<DateTime>)
    ensures r.Ok? ==> Valid(r.value)
  {
    var d := SplitOn(dateStr, '.');
    var t := SplitOn(timeStr, ':');
    if |d| != 3 || |t| != 2 then Err("ValueError")
    else
      match (ParseInt(d[2]), ParseInt(d[1]), ParseInt(d[0]), ParseInt(t[0]), ParseInt(t[1]))
      case (Some(y), Some(mo), Some(da), Some(h), Some(mi)) =>
        var dt := DateTime(y, mo, da, h, mi);
        if Valid(dt) then Ok(dt) else Err("ValueError")
      case _ => Err("ValueError")
  }

  /** A date and a time that both went through their parsers always build a date-time,
      the one their digits name. */
  lemma ParsedInputsBuild(s: string, ts: string, currentYear: nat)
    requires ParseDateInput(s, currentYear).Some? && ParseTimeInput(ts).Some?
    ensures var d := ParseDateInput(s, currentYear).value;
      var t := ParseTimeInput(ts).value;
      BuildDt(d, t) == Ok(DateTime(DigitsValue(d[6..]), DigitsValue(d[3..5]), DigitsValue(d[..2]),
                                   DigitsValue(t[..2]), DigitsValue(t[3..])))
  {
    DateSplit(s, currentYear);
    TimeSplit(ts);
  }

  /** A parsed date splits on its dots into three integers naming a valid date. */
  lemma DateSplit(s: string, currentYear: nat)
    requires ParseDateInput(s, currentYear).Some?
    ensures var d := ParseDateInput(s, currentYear).value;
      |d| > 6 && IsDigits(d[..2]) && IsDigits(d[3..5]) && IsDigits(d[6..])
      && SplitOn(d, '.') == [d[..2], d[3..5], d[6..]]
      && ParseInt(d[..2]) == Some(DigitsValue(d[..2]))
      && ParseInt(d[3..5]) == Some(DigitsValue(d[3..5]))
      && ParseInt(d[6..]) == Some(DigitsValue(d[6..]))
      && ValidDate(DigitsValue(d[6..]), DigitsValue(d[3..5]), DigitsValue(d[..2]))
  {
    ParsedDateValid(s, currentYear);
    var dd, mm, yyyy := ParsedDateForm(s, currentYear);
    DateParts(dd, mm, yyyy);
    DigitsParse(dd);
    DigitsParse(mm);
    DigitsParse(yyyy);
  }

  /** The three fields a parsed date is made of. */
  lemma ParsedDateForm(s: string, currentYear: nat) returns (dd: string, mm: string, yyyy: string)
    requires ParseDateInput(s, currentYear).Some?
    ensures |dd| == 2 && |mm| == 2 && IsDigits(dd) && IsDigits(mm) && IsDigits(yyyy)
    ensures ParseDateInput(s, currentYear).value == dd + "." + mm + "." + yyyy
  {
    var tt := Strip(s);
    assert DateShape(tt);
    dd := tt[..2];
    mm := tt[3..5];
    yyyy := if |tt| == 10 then tt[6..] else NatToString(currentYear);
    assert dd[0] == tt[0] && dd[1] == tt[1];
    assert mm[0] == tt[3] && mm[1] == tt[4];
  }

  lemma DateParts(dd: string, mm: string, yyyy: string)
    requires |dd| == 2 && |mm| == 2 && IsDigits(dd) && IsDigits(mm) && IsDigits(yyyy)
    ensures var d := dd + "." + mm + "." + yyyy;
      |d| > 6 && d[..2] == dd && d[3..5] == mm && d[6..] == yyyy
      && SplitOn(d, '.') == [dd, mm, yyyy]
  {
    assert '.' !in dd && '.' !in mm && '.' !in yyyy;
    DateFields(dd, mm, yyyy);
  }


  /** A parsed time splits on its colon into two integers naming a valid time. */
  lemma TimeSplit(ts: string)
    requires ParseTimeInput(ts).Some?
    ensures var t := ParseTimeInput(ts).value;
      SplitOn(t, ':') == [t[..2], t[3..]]
      && ParseInt(t[..2]) == Some(DigitsValue(t[..2])) && ParseInt(t[3..]) == Some(DigitsValue(t[3..]))
      && ValidTime(DigitsValue(t[..2]), DigitsValue(t[3..]))
  {
    var t := ParseTimeInput(ts).value;
    ParseTimeSpec(ts);
    assert t == t[..2] + ":" + t[3..];
    DateFields2(t[..2], t[3..]);
    DigitsParse(t[..2]);
    DigitsParse(t[3..]);
  }

  /** Splitting `HH:MM` on the colon gives back its two fields. */
  lemma DateFields2(hh: string, mi: string)
    requires ':' !in hh && ':' !in mi
    ensures SplitOn(hh + ":" + mi, ':') == [hh, mi]
  {
    SplitNoSep(mi, ':');
    SplitPrefix(hh, mi, ':');
  }

  // ---------------------------------------------------------------- who and where

  /** The `from` of a message: its user id (0 where Telegram sent none) and whether it is a bot. */
  datatype Sender = Sender(id: int, isBot: bool)

  /** The `reply_to_message` of a message, as far as the bot reads it. */
  datatype Replied = Replied(sender: Option<Sender>, threadId: Option<int>)

  /** An incoming message: its text, the chat's type, its author, its forum topic and the
      message it answers. */
  datatype Message = Message(text: string, chatType: string, sender: Option<Sender>,
                             threadId: Option<int>, replyTo: Option<Replied>)

  /** A real person: an id is present and the account is not a bot. */
  predicate Human(s: Sender) {
    s.id != 0 && !s.isBot
  }

  /** The authors a message names, in the order the bot consults them: its own sender,
      then the sender of the message it replies to. */
  function Authors(m: Message): seq<Sender> {
    (if m.sender.Some? then [m.sender.value] else [])
    + (if m.replyTo.Some? && m.replyTo.value.sender.Some? then [m.replyTo.value.sender.value] else [])
  }

  /** `resolve_user_id_from_message`. */
  function ResolveUserId(m: Message): (r: Option<int>)
    ensures r.Some? ==> r.value != 0
  {
    if m.sender.Some? && Human(m.sender.value) then Some(m.sender.value.id)
    else if m.replyTo.Some? && m.replyTo.value.sender.Some? && Human(m.replyTo.value.sender.value) then
      Some(m.replyTo.value.sender.value.id)
    else None
  }

  /** The user a message is attributed to is the first real person among its authors, and
      there is none exactly when every author is missing, anonymous or a bot. */
  lemma ResolvesFirstHuman(m: Message)
    ensures ResolveUserId(m).None? <==> forall k | 0 <= k < |Authors(m)| :: !Human(Authors(m)[k])
    ensures ResolveUserId(m).Some? ==>
      exists k | 0 <= k < |Authors(m)| :: Human(Authors(m)[k]) && Authors(m)[k].id == ResolveUserId(m).value
        && forall j | 0 <= j < k :: !Human(Authors(m)[j])
  {
    var a := Authors(m);
    if m.sender.Some? {
      assert a[0] == m.sender.value;
      if m.replyTo.Some? && m.replyTo.value.sender.Some? {
        assert a[1] == m.replyTo.value.sender.value;
      }
    } else if m.replyTo.Some? && m.replyTo.value.sender.Some? {
      assert a[0] == m.replyTo.value.sender.value;
    }
  }

  /** `str(message_thread_id)`, which is "None" for a message outside any topic. */
  function ThreadText(t: Option<int>): string {
    if t.Some? then IntToString(t.value) else "None"
  }

  /** The topic of the message being answered, if any. */
  function ReplyThread(m: Message): Option<int> {
    if m.replyTo.Some? then m.replyTo.value.threadId else None
  }

  /** `in_meets_thread`: the configured topic, trimmed, is set and is the message's topic or
      the topic of the message it answers, compared as text. */
  predicate InMeetsThread(m: Message, config: string) {
    var target := Strip(config);
    target != "" && (ThreadText(m.threadId) == target || ThreadText(ReplyThread(m)) == target)
  }

  lemma IntToStringShape(n: int)
    ensures var s := IntToString(n);
      |s| >= 1 && (s[0] == '-' || IsDigit(s[0])) && IsDigit(s[|s| - 1])
  {
    var d := NatToString(if n < 0 then -n else n);
    assert d[|d| - 1] in d && d[0] in d;
  }

  /** With the topic configured as a number, a message belongs to the meetings thread
      exactly when it, or the message it answers, was posted in that topic. */
  lemma InMeetsThreadById(m: Message, n: int)
    ensures InMeetsThread(m, IntToString(n)) <==> m.threadId == Some(n) || ReplyThread(m) == Some(n)
  {
    var s := IntToString(n);
    IntToStringShape(n);
    StripTrimmed(s);
    assert "None"[0] == 'N';
    forall t: Option<int> | ThreadText(t) == s
      ensures t == Some(n)
    {
      if t.Some? {
        ParseIntToString(t.value);
        ParseIntToString(n);
      }
    }
  }

  // ---------------------------------------------------------------- manager buttons

  /** An inline keyboard button: its label and its callback data. */
  datatype Button = Button(text: string, payload: string)

  const ManagerPrefix: string := "meet:manager:"
  const BackToTime: Button := Button("⬅️ Назад", "meet:back:time")
  const CancelButton: Button := Button("❌ Отмена", "meet:cancel")

  /** The label of a manager's button: the trimmed name, or "Manager". */
  function ButtonName(m: ManagersRepo.Manager): string {
    if Strip(m.name) != "" then Strip(m.name) else "Manager"
  }

  /** The handle a button carries: the username with one `@` in front, or `NAME:` and the
      label for a manager without a username. */
  function ButtonHandle(m: ManagersRepo.Manager): string {
    var u := Strip(m.username);
    if u == "" then "NAME:" + ButtonName(m) else if u[0] == '@' then u else "@" + u
  }

  /** The Telegram id a button carries: the trimmed id, or "0". */
  function ButtonId(m: ManagersRepo.Manager): string {
    if Strip(m.telegramId) != "" then Strip(m.telegramId) else "0"
  }

  /** One manager's button in `managers_keyboard`. */
  function ManagerButton(m: ManagersRepo.Manager): Button {
    Button(ButtonName(m), ManagerPrefix + ButtonHandle(m) + "|" + ButtonId(m) + "|" + ButtonName(m))
  }

  function Buttons(managers: seq<ManagersRepo.Manager>): seq<Button> {
    seq(|managers|, k requires 0 <= k < |managers| => ManagerButton(managers[k]))
  }

  /** Items laid out two to a row, the last row holding what is left. */
  function Pairs<T>(xs: seq<T>): seq<seq<T>>
    decreases |xs|
  {
    if |xs| <= 2 then (if xs == [] then [] else [xs]) else [xs[..2]] + Pairs(xs[2..])
  }

  function Flatten<T>(rows: seq<seq<T>>): seq<T> {
    if rows == [] then [] else rows[0] + Flatten(rows[1..])
  }

  /** Laying out in pairs loses nothing and reorders nothing; every row holds one or two
      items and only the last may hold one. */
  lemma {:induction false} PairsLayout<T>(xs: seq<T>)
    ensures Flatten(Pairs(xs)) == xs
    ensures forall k | 0 <= k < |Pairs(xs)| :: 1 <= |Pairs(xs)[k]| <= 2
    ensures forall k | 0 <= k < |Pairs(xs)| - 1 :: |Pairs(xs)[k]| == 2
    ensures |Pairs(xs)| == (|xs| + 1) / 2
    decreases |xs|
  {
    if |xs| > 2 {
      PairsLayout(xs[2..]);
      var p := Pairs(xs);
      assert p[1..] == Pairs(xs[2..]);
      assert xs == xs[..2] + xs[2..];
    } else if xs != [] {
      assert Flatten([xs]) == xs + Flatten([xs][1..]);
      assert [xs][1..] == [];
      assert xs + [] == xs;
    }
  }

  /** Adding a last row of one or two items after an even number of items. */
  lemma {:induction false} PairsSnoc<T>(xs: seq<T>, ys: seq<T>)
    requires |xs| % 2 == 0 && 1 <= |ys| <= 2
    ensures Pairs(xs + ys) == Pairs(xs) + [ys]
    decreases |xs|
  {
    if xs == [] {
      assert xs + ys == ys;
    } else {
      var zs := xs + ys;
      assert zs[..2] == xs[..2] && zs[2..] == xs[2..] + ys;
      PairsSnoc(xs[2..], ys);
      if |xs| == 2 {
        assert xs[2..] == [] && xs[..2] == xs;
      }
    }
  }

  /** `managers_keyboard` given the managers `get_managers` returned: their buttons two to a
      row, then a row going back to the time step and a row cancelling. */
  method ManagersKeyboard(managers: seq<ManagersRepo.Manager>) returns (rows: seq<seq<Button>>)
    ensures rows == Pairs(Buttons(managers)) + [[BackToTime], [CancelButton]]
  {
    ghost var bs := Buttons(managers);
    rows := [];
    var row: seq<Button> := [];
    var i := 0;
    while i < |managers|
      invariant 0 <= |row| <= i <= |managers| && |row| < 2 && (i - |row|) % 2 == 0
      invariant row == bs[i - |row|..i]
      invariant rows == Pairs(bs[..i - |row|])
    {
      PairsStep(bs, i, row);
      row := row + [ManagerButton(managers[i])];
      if |row| == 2 {
        rows := rows + [row];
        row := [];
      }
      i := i + 1;
    }
    if row != [] {
      PairsLast(bs, row);
      rows := rows + [row];
    } else {
      assert bs[..i] == bs;
    }
    rows := rows + [[BackToTime], [CancelButton]];
  }

  /** One loop step of `managers_keyboard`: the pending row grows by the next button, and a
      full row joins the finished rows. */
  lemma PairsStep<T>(bs: seq<T>, i: nat, row: seq<T>)
    requires |row| <= i < |bs| && |row| < 2 && (i - |row|) % 2 == 0 && row == bs[i - |row|..i]
    ensures row + [bs[i]] == bs[i - |row|..i + 1]
    ensures |row| == 1 ==> Pairs(bs[..i + 1]) == Pairs(bs[..i - 1]) + [row + [bs[i]]]
  {
    if |row| == 1 {
      assert bs[..i - 1] + (row + [bs[i]]) == bs[..i + 1];
      PairsSnoc(bs[..i - 1], row + [bs[i]]);
    }
  }

  /** After the loop: a pending single button is the last row. */
  lemma PairsLast<T>(bs: seq<T>, row: seq<T>)
    requires |row| == 1 && 1 <= |bs| && (|bs| - 1) % 2 == 0 && row == bs[|bs| - 1..]
    ensures Pairs(bs) == Pairs(bs[..|bs| - 1]) + [row]
  {
    var init := bs[..|bs| - 1];
    Seqs.AppendParts(init, row);
    assert init + row == bs;
    PairsSnoc(init, row);
  }


  /** The keyboard offers every manager once, in the order of the Managers worksheet, and
      its manager rows hold at most two buttons. */
  lemma KeyboardListsEveryManager(managers: seq<ManagersRepo.Manager>)
    ensures Flatten(Pairs(Buttons(managers))) == Buttons(managers)
    ensures forall k | 0 <= k < |Pairs(Buttons(managers))| :: 1 <= |Pairs(Buttons(managers))[k]| <= 2
  {
    PairsLayout(Buttons(managers));
  }

  // ---------------------------------------------------------------- the chosen manager

  /** What the bot stores when a manager button is pressed: the handle, the Telegram id, the
      name, and the form shown to people (the `@handle` when there is one, else the name). */
  datatype ManagerChoice = ManagerChoice(token: string, telegramId: string, name: string, pretty: string)

  /** The `meet:manager:` branch of `handle_callback` reading the text after the prefix. */
  function ChooseManager(raw: string): (c: ManagerChoice)
    ensures |c.token| > 0 && c.token[0] == '@' ==> c.pretty == c.token
    ensures !(|c.token| > 0 && c.token[0] == '@') ==> c.pretty == c.name
  {
    var parts := SplitOn(raw, '|');
    var tid := if |parts| >= 2 then parts[1] else "0";
    var name := if |parts| >= 3 then parts[2] else RemoveAll(parts[0], "NAME:");
    var token := Strip(parts[0]);
    var name' := Strip(name);
    var tid' := Strip(if tid == "" then "0" else tid);
    ManagerChoice(token, tid', name', if |token| > 0 && token[0] == '@' then token else name')
  }

  lemma TrimmedConcat(a: string, b: string)
    requires a != [] && !IsSpace(a[0]) && Trimmed(b) && b != []
    ensures Trimmed(a + b)
  {
  }

  /** Pressing a manager's button stores exactly what the button was built from: the
      handle, the id and the label, and shows the `@handle` when the manager has a
      username and the name otherwise. The fields must not contain the separator `|`. */
  lemma ChooseManagerButton(m: ManagersRepo.Manager)
    requires '|' !in m.name && '|' !in m.username && '|' !in m.telegramId
    ensures var p := ManagerButton(m).payload;
      |p| >= |ManagerPrefix| && p[..|ManagerPrefix|] == ManagerPrefix
      && ChooseManager(p[|ManagerPrefix|..])
         == ManagerChoice(ButtonHandle(m), ButtonId(m), ButtonName(m),
                          if Strip(m.username) != "" then ButtonHandle(m) else ButtonName(m))
  {
    var h := ButtonHandle(m);
    var i := ButtonId(m);
    var n := ButtonName(m);
    var p := ManagerButton(m).payload;
    ButtonFieldsClean(m);
    Seqs.AppendParts(ManagerPrefix, h + "|" + i + "|" + n);
    assert p == ManagerPrefix + (h + "|" + i + "|" + n);
    ChooseFields(h, i, n);
  }

  /** The three fields of a button's payload are trimmed and free of `|`, the id is never
      empty, and the handle starts with `@` exactly when the manager has a username. */
  lemma ButtonFieldsClean(m: ManagersRepo.Manager)
    requires '|' !in m.name && '|' !in m.username && '|' !in m.telegramId
    ensures '|' !in ButtonHandle(m) && '|' !in ButtonId(m) && '|' !in ButtonName(m)
    ensures Trimmed(ButtonHandle(m)) && Trimmed(ButtonId(m)) && Trimmed(ButtonName(m))
    ensures ButtonId(m) != "" && ButtonHandle(m) != ""
    ensures ButtonHandle(m)[0] == '@' <==> Strip(m.username) != ""
  {
    StripShape(m.name);
    StripShape(m.username);
    StripShape(m.telegramId);
    NoBarInStrip(m.name);
    NoBarInStrip(m.username);
    NoBarInStrip(m.telegramId);
    var n := ButtonName(m);
    var u := Strip(m.username);
    if u == "" {
      TrimmedConcat("NAME:", n);
      assert ("NAME:" + n)[0] == 'N';
    } else if u[0] != '@' {
      TrimmedConcat("@", u);
    }
  }

  /** Reading back a payload made of a handle, an id and a name. */
  lemma ChooseFields(h: string, i: string, n: string)
    requires '|' !in h && '|' !in i && '|' !in n
    requires Trimmed(h) && Trimmed(i) && Trimmed(n) && i != ""
    ensures ChooseManager(h + "|" + i + "|" + n)
            == ManagerChoice(h, i, n, if |h| > 0 && h[0] == '@' then h else n)
  {
    assert h + "|" + i + "|" + n == Join([h, i, n], '|') by {
      JoinCons(i, [n], '|');
      JoinCons(h, [i, n], '|');
      assert [h] + [i, n] == [h, i, n] && [i] + [n] == [i, n];
    }
    SplitJoin([h, i, n], '|');
    StripTrimmed(h);
    StripTrimmed(i);
    StripTrimmed(n);
  }

  /** A trimmed string has no character its source lacks. */
  lemma NoBarInStrip(s: string)
    requires '|' !in s
    ensures '|' !in Strip(s)
  {
    StripShape(s);
    var i, j :| 0 <= i <= j <= |s| && Strip(s) == s[i..j];
    assert forall c | c in s[i..j] :: c in s;
  }
}
