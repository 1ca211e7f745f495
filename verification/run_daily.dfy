/** The morning report of the day's meetings: one card per meeting the bot created, each
    with edit and delete buttons, or a single card saying there are none. The day's
    events are a parameter; the local-time rendering of a start is left to the caller,
    so a card keeps the start as listed. */
module DailyReport {
  import opened Wrappers
  import opened Text
  import opened Sorting
  import opened CalendarService

  // ---------------------------------------------------------------- description lookup

  /** A line that, lower-cased, starts with the lower-cased key and a colon. */
  predicate KeyLine(line: string, key: string) {
    StartsWith(Lower(line), Lower(key) + ":")
  }

  /** The trimmed text after the first colon of a line. */
  function AfterColon(line: string): string
    requires ':' in line
  {
    Strip(line[Find(line, ':') + 1..])
  }

  lemma KeyLineHasColon(line: string, key: string)
    requires KeyLine(line, key)
    ensures ':' in line
  {
    var i := |Lower(key)|;
    assert Lower(line)[i] == (Lower(key) + ":")[i] == ':';
  }

  /** The scan of `_extract_from_description` over the lines. */
  function FromLines(lines: seq<string>, key: string): (r: string)
    ensures Trimmed(r)
  {
    if lines == [] then ""
    else if KeyLine(lines[0], key) then
      KeyLineHasColon(lines[0], key);
      StripShape(lines[0][Find(lines[0], ':') + 1..]);
      AfterColon(lines[0])
    else FromLines(lines[1..], key)
  }

  /** `_extract_from_description`: the value of the first `key:` line, "" when none. */
  function ExtractFromDescription(description: string, key: string): (r: string)
    ensures Trimmed(r)
  {
    if description == "" then "" else FromLines(SplitLines(description), key)
  }

  /** The first line that carries the key decides, whatever follows it. */
  lemma {:induction false} FirstKeyLineWins(lines: seq<string>, key: string, k: nat)
    requires k < |lines| && KeyLine(lines[k], key)
    requires forall j | 0 <= j < k :: !KeyLine(lines[j], key)
    ensures ':' in lines[k] && FromLines(lines, key) == AfterColon(lines[k])
    decreases k
  {
    KeyLineHasColon(lines[k], key);
    if k > 0 {
      assert !KeyLine(lines[0], key);
      forall j | 0 <= j < k - 1 ensures !KeyLine(lines[1..][j], key) {
        assert lines[1..][j] == lines[j + 1];
      }
      FirstKeyLineWins(lines[1..], key, k - 1);
    }
  }

  /** Without a line carrying the key the value is empty. */
  lemma {:induction false} NoKeyLine(lines: seq<string>, key: string)
    requires forall j | 0 <= j < |lines| :: !KeyLine(lines[j], key)
    ensures FromLines(lines, key) == ""
    decreases |lines|
  {
    if lines != [] {
      assert !KeyLine(lines[0], key);
      forall j | 0 <= j < |lines| - 1 ensures !KeyLine(lines[1..][j], key) {
        assert lines[1..][j] == lines[j + 1];
      }
      NoKeyLine(lines[1..], key);
    }
  }

  // ---------------------------------------------------------------- what a card shows

  /** Events the bot created and that are not cancelled. */
  predicate Ours(e: CalendarEvent) {
    e.status != "cancelled" && Contains(e.description, "source: qeepe_meets")
  }

  /** The kept events in their order. */
  function Filtered(events: seq<CalendarEvent>): (r: seq<CalendarEvent>)
    ensures |r| <= |events|
  {
    if events == [] then [] else Filtered(events[..|events| - 1]) + Keep(events[|events| - 1])
  }

  function Keep(e: CalendarEvent): seq<CalendarEvent> {
    if Ours(e) then [e] else []
  }

  /** The sort key: the start `dateTime`, "" when the event has none. */
  function StartKey(e: CalendarEvent): string {
    e.startDateTime
  }

  /** The title: the summary (`Встреча` when there is none), trimmed, without a leading
      `встреча:` in any letter case. */
  function Title(summary: string): string {
    var s := Strip(if summary == "" then "Встреча" else summary);
    if StartsWith(Lower(s), "встреча:") then
      assert Lower(s)[7] == ':';
      Strip(s[Find(s, ':') + 1..])
    else s
  }

  /** The body of a card. */
  datatype Body =
    | NoMeetings
    | Meeting(start: string, title: string, managerUsername: string, managerName: string,
              comment: string)

  /** A card: the day header (on the first card only), the body, and the event id the
      buttons refer to ("" for none). */
  datatype Card = Card(header: Option<string>, body: Body, eventId: string)

  /** The card of one meeting, every value read with the line lookup. */
  function CardOf(e: CalendarEvent, first: bool, date: string): Card {
    var d := e.description;
    Card(if first then Some(date) else None,
         Meeting(e.startDateTime, Title(e.summary), ExtractFromDescription(d, "manager_username"),
                 ExtractFromDescription(d, "manager_name"), CommentAsWritten(d)),
         Strip(e.id))
  }

  /** The cards of the meetings in the given order, the header on the first. */
  function Cards(ordered: seq<CalendarEvent>, date: string): seq<Card> {
    seq(|ordered|, i requires 0 <= i < |ordered| => CardOf(ordered[i], i == 0, date))
  }

  /** The meetings of the day in report order: kept, then stably sorted by start. */
  function Ordered(events: seq<CalendarEvent>): seq<CalendarEvent> {
    StableSortBy(Filtered(events), StartKey)
  }

  /** `build_cards_for_today` on the day's events. */
  function Report(events: seq<CalendarEvent>, date: string): seq<Card> {
    if Filtered(events) == [] then [Card(Some(date), NoMeetings, "")] else Cards(Ordered(events), date)
  }

  /** `build_cards_for_today`: the events are filtered in a loop, sorted, and turned into
      cards in a second loop. */
  method BuildCardsForToday(events: seq<CalendarEvent>, date: string) returns (cards: seq<Card>)
    ensures cards == Report(events, date)
  {
    var ours := FilterOurs(events);
    if ours == [] {
      return [Card(Some(date), NoMeetings, "")];
    }
    ours := StableSortBy(ours, StartKey);
    cards := MakeCards(ours, date);
  }

  /** The first loop of `build_cards_for_today`: the events not cancelled that the bot created. */
  method FilterOurs(events: seq<CalendarEvent>) returns (ours: seq<CalendarEvent>)
    ensures ours == Filtered(events)
  {
    ours := [];
    var i := 0;
    while i < |events|
      invariant 0 <= i <= |events|
      invariant ours == Filtered(events[..i])
    {
      FilteredStep(events, i);
      var e := events[i];
      if Ours(e) {
        ours := ours + [e];
      }
      i := i + 1;
    }
    assert events[..i] == events;
  }

  lemma FilteredStep(events: seq<CalendarEvent>, i: nat)
    requires i < |events|
    ensures Filtered(events[..i + 1]) == Filtered(events[..i]) + Keep(events[i])
  {
    assert events[..i + 1][..i] == events[..i];
  }

  /** The second loop of `build_cards_for_today`: one card per meeting, the date header on
      the first. */
  method MakeCards(ours: seq<CalendarEvent>, date: string) returns (cards: seq<Card>)
    ensures cards == Cards(ours, date)
  {
    cards := [];
    var k := 0;
    while k < |ours|
      invariant 0 <= k <= |ours|
      invariant cards == Cards(ours[..k], date)
    {
      CardsStep(ours, k, date);
      cards := cards + [CardOf(ours[k], k == 0, date)];
      k := k + 1;
    }
    assert ours[..k] == ours;
  }

  lemma CardsStep(ours: seq<CalendarEvent>, k: nat, date: string)
    requires k < |ours|
    ensures Cards(ours[..k + 1], date) == Cards(ours[..k], date) + [CardOf(ours[k], k == 0, date)]
  {
    var a := Cards(ours[..k + 1], date);
    var b := Cards(ours[..k], date) + [CardOf(ours[k], k == 0, date)];
    forall j | 0 <= j < k + 1 ensures a[j] == b[j] {
      assert ours[..k + 1][j] == ours[j];
      if j < k {
        assert ours[..k][j] == ours[j];
      }
    }
  }

  /** Filtering is done event by event: it distributes over concatenation. */
  lemma {:induction false} FilteredAppend(a: seq<CalendarEvent>, b: seq<CalendarEvent>)
    ensures Filtered(a + b) == Filtered(a) + Filtered(b)
    decreases |b|
  {
    if b == [] {
      assert a + b == a;
    } else {
      var b' := b[..|b| - 1];
      assert (a + b)[..|a + b| - 1] == a + b';
      assert (a + b)[|a + b| - 1] == b[|b| - 1];
      FilteredAppend(a, b');
    }
  }

  /** Exactly the events the bot created and that are not cancelled are kept. */
  lemma {:induction false} FilteredExactly(events: seq<CalendarEvent>)
    ensures forall e | e in Filtered(events) :: Ours(e) && e in events
    ensures forall e | e in events && Ours(e) :: e in Filtered(events)
    decreases |events|
  {
    if events != [] {
      var init := events[..|events| - 1];
      FilteredExactly(init);
      assert events == init + [events[|events| - 1]];
    }
  }

  /** Without meetings the report is one card, with the header, and no event to act on. */
  lemma EmptyReport(events: seq<CalendarEvent>, date: string)
    requires forall e | e in events :: !Ours(e)
    ensures Report(events, date) == [Card(Some(date), NoMeetings, "")]
  {
    if Filtered(events) != [] {
      FilteredExactly(events);
      assert Filtered(events)[0] in Filtered(events);
    }
  }

  /** Otherwise one card per kept meeting, ordered by start, equal starts in their listed
      order, and the day header on the first card only. */
  lemma MeetingsReport(events: seq<CalendarEvent>, date: string)
    requires Filtered(events) != []
    ensures var r := Report(events, date);
      |r| == |Filtered(events)| && r[0].header == Some(date)
      && (forall j | 1 <= j < |r| :: r[j].header == None)
      && (forall j | 0 <= j < |r| :: r[j].body.Meeting?)
      && (forall j | 0 <= j < |r| :: r[j].eventId == Strip(Ordered(events)[j].id))
    ensures SortedBy(Ordered(events), StartKey)
    ensures multiset(Ordered(events)) == multiset(Filtered(events))
    ensures forall k :: WithKey(Ordered(events), StartKey, k) == WithKey(Filtered(events), StartKey, k)
  {
    ReportCards(events, date);
    OrderedBySort(events);
  }

  lemma ReportCards(events: seq<CalendarEvent>, date: string)
    requires Filtered(events) != []
    ensures var r := Report(events, date);
      |r| == |Filtered(events)| && r[0].header == Some(date)
      && (forall j | 1 <= j < |r| :: r[j].header == None)
      && (forall j | 0 <= j < |r| :: r[j].body.Meeting?)
      && (forall j | 0 <= j < |r| :: r[j].eventId == Strip(Ordered(events)[j].id))
  {
    var o := Ordered(events);
    SortPermutation(Filtered(events), StartKey);
    assert |o| == |Filtered(events)| by {
      assert |multiset(o)| == |multiset(Filtered(events))|;
    }
    var r := Report(events, date);
    assert r == Cards(o, date);
    forall j | 0 <= j < |r|
      ensures r[j].header == (if j == 0 then Some(date) else None)
      ensures r[j].body.Meeting? && r[j].eventId == Strip(o[j].id)
    {
      CardOfShape(o[j], j == 0, date);
    }
  }

  lemma CardOfShape(e: CalendarEvent, first: bool, date: string)
    ensures CardOf(e, first, date).header == (if first then Some(date) else None)
    ensures CardOf(e, first, date).body.Meeting? && CardOf(e, first, date).eventId == Strip(e.id)
  {
  }

  lemma OrderedBySort(events: seq<CalendarEvent>)
    ensures SortedBy(Ordered(events), StartKey)
    ensures multiset(Ordered(events)) == multiset(Filtered(events))
    ensures forall k :: WithKey(Ordered(events), StartKey, k) == WithKey(Filtered(events), StartKey, k)
  {
    SortSorted(Filtered(events), StartKey);
    SortPermutation(Filtered(events), StartKey);
    forall k ensures WithKey(Ordered(events), StartKey, k) == WithKey(Filtered(events), StartKey, k) {
      SortStable(Filtered(events), StartKey, k);
    }
  }

  // ---------------------------------------------------------------- title and buttons

  /** The summary the bot gives a meeting, `Встреча: <client>`, shows as the client. */
  lemma TitleOfCreatedEvent(client: string)
    requires client != "" && Trimmed(client)
    ensures Title(SummaryPrefix + client) == client
  {
    var s := SummaryPrefix + client;
    PrefixShape();
    assert s[..8] == SummaryPrefix[..8] && s[..7] == SummaryPrefix[..7];
    assert Lower(s)[..8] == Lower(s[..8]);
    assert s[0] == SummaryPrefix[0] && s[|s| - 1] == client[|client| - 1];
    StripTrimmed(s);
    FindUnique(s, ':', 7);
    assert s[8..] == " " + client;
    StripLeadingSpace(client);
  }

  lemma PrefixShape()
    ensures |SummaryPrefix| == 9 && SummaryPrefix[7] == ':' && ':' !in SummaryPrefix[..7]
    ensures !IsSpace(SummaryPrefix[0])
    ensures Lower(SummaryPrefix[..8]) == "встреча:"
  {
    assert SummaryPrefix[..8] == "Встреча:";
    assert SummaryPrefix[..7] == "Встреча";
    LowerMeeting();
  }

  lemma LowerMeeting()
    ensures Lower("Встреча:") == "встреча:"
  {
    var p := "Встреча:";
    var q := "встреча:";
    assert |Lower(p)| == |q|;
    forall i | 0 <= i < 8 ensures Lower(p)[i] == q[i] {
      assert Lower(p)[i] == LowerChar(p[i]);
    }
  }


  /** One leading space is stripped away. */
  lemma StripLeadingSpace(t: string)
    requires t != [] && Trimmed(t)
    ensures Strip(" " + t) == t
  {
    assert (" " + t)[1..] == t;
    assert LStrip(" " + t) == LStrip(t) == t;
    StripTrimmed(t);
  }

  /** `_meeting_keyboard`: the two button payloads of a card. */
  datatype Buttons = Buttons(edit: string, delete: string)

  /** The keyboard `main` attaches: only to a card naming an event. */
  function KeyboardOf(c: Card): Option<Buttons> {
    if c.eventId != "" then Some(Buttons("meet:edit:" + c.eventId, "meet:delete:" + c.eventId)) else None
  }

  /** `main`: each card sent in order, with its keyboard. */
  method SendCards(cards: seq<Card>) returns (sent: seq<(Card, Option<Buttons>)>)
    ensures |sent| == |cards|
    ensures forall j | 0 <= j < |cards| :: sent[j].0 == cards[j]
    ensures forall j | 0 <= j < |cards| :: sent[j].1.Some? <==> cards[j].eventId != ""
    ensures forall j | 0 <= j < |cards| && cards[j].eventId != "" ::
      sent[j].1 == Some(Buttons("meet:edit:" + cards[j].eventId, "meet:delete:" + cards[j].eventId))
  {
    sent := [];
    for j := 0 to |cards|
      invariant |sent| == j
      invariant forall i | 0 <= i < j :: sent[i] == (cards[i], KeyboardOf(cards[i]))
    {
      sent := sent + [(cards[j], KeyboardOf(cards[j]))];
    }
  }

  /** The buttons lead back to the bot with the card's event id: the edit and delete
      payloads start with the prefixes the bot dispatches on, and what follows the prefix,
      trimmed as the bot trims it, is the id. */
  lemma ButtonsNameTheEvent(events: seq<CalendarEvent>, date: string, j: nat)
    requires j < |Report(events, date)| && Report(events, date)[j].eventId != ""
    ensures var c := Report(events, date)[j];
      var b := KeyboardOf(c).value;
      StartsWith(b.edit, "meet:edit:") && Strip(b.edit[10..]) == c.eventId
      && StartsWith(b.delete, "meet:delete:") && Strip(b.delete[12..]) == c.eventId
  {
    var c := Report(events, date)[j];
    StripShape(Ordered(events)[j].id);
    StripTrimmed(c.eventId);
    assert ("meet:edit:" + c.eventId)[10..] == c.eventId;
    assert ("meet:delete:" + c.eventId)[12..] == c.eventId;
  }

  // ---------------------------------------------------------------- the comment

  /** The comment of a card as `_extract_from_description(desc, "comment")` reads it. */
  function CommentAsWritten(description: string): (r: string)
    ensures Trimmed(r)
  {
    ExtractFromDescription(description, "comment")
  }

  /** The comment of a card, read by the description decoder: a `comment<<<` block or a
      legacy `comment:` line. */
  function CommentOf(description: string): string {
    TextField(ParseDescription(description), CommentKey)
  }

  /** The card as it was evidently meant: the comment read by the description decoder. */
  function CorrectedCardOf(e: CalendarEvent, first: bool, date: string): Card {
    var c := CardOf(e, first, date);
    c.(body := c.body.(comment := CommentOf(e.description)))
  }

  /** With the decoder, the comment the bot stores reaches the card, and nothing else on
      the card changes. */
  lemma CardShowsComment(e: CalendarEvent, first: bool, date: string,
                         managerId: int, managerName: string, client: string, comment: string)
    requires e.description == BuildDescription(managerId, managerName, client, comment)
    requires SingleLine(managerName) && SingleLine(client) && BlockSafe(comment)
    ensures CorrectedCardOf(e, first, date)
         == CardOf(e, first, date).(body := CardOf(e, first, date).body.(comment := Strip(comment)))
  {
    assert CommentOf(e.description) == Strip(comment) by {
      RoundTrip(managerId, managerName, client, comment);
    }
    CorrectedCardShape(e, first, date);
  }

  lemma CorrectedCardShape(e: CalendarEvent, first: bool, date: string)
    ensures CorrectedCardOf(e, first, date)
         == CardOf(e, first, date).(body := CardOf(e, first, date).body.(comment := CommentOf(e.description)))
  {
  }

  /** The line lookup never sees the comment the bot stores: the encoder writes it in a
      `comment<<<` block, and no line of the description starts with `comment:` unless
      the comment itself has such a line. */
  lemma CommentAsWrittenMissesBlock(managerId: int, managerName: string, client: string, comment: string)
    requires NoBreaks(managerName) && NoBreaks(client)
    requires forall l | l in SplitLines(Strip(comment)) :: !KeyLine(l, "comment")
    ensures CommentAsWritten(BuildDescription(managerId, managerName, client, comment)) == ""
  {
    var lines := DescriptionLines(managerId, managerName, client, comment);
    DescriptionLinesSplit(managerId, managerName, client, comment);
    assert lines != [];
    forall j | 0 <= j < |lines| ensures !KeyLine(lines[j], "comment") {
      NotCommentLine(managerId, managerName, client, comment, j);
    }
    NoKeyLine(lines, "comment");
  }

  /** A meeting booked with the comment `late`: its card as written shows no comment,
      the corrected card shows `late`. */
  lemma CommentLostExample(e: CalendarEvent, first: bool, date: string)
    requires e.description == BuildDescription(7, "Ann", "Acme", "late")
    ensures CardOf(e, first, date).body.comment == ""
    ensures CorrectedCardOf(e, first, date).body.comment == "late"
  {
    LateComment();
    ExampleNames();
    CommentAsWrittenMissesBlock(7, "Ann", "Acme", "late");
    CardShowsComment(e, first, date, 7, "Ann", "Acme", "late");
  }

  lemma LateComment()
    ensures Strip("late") == "late" && SplitLines("late") == ["late"]
    ensures !KeyLine("late", "comment") && BlockSafe("late")
  {
    LateLines();
    LateSafe();
    DiffersAt("late", 0);
  }

  lemma LateSafe()
    requires Strip("late") == "late" && SplitLines("late") == ["late"]
    ensures BlockSafe("late")
  {
    assert OnlyNewlineBreaks("late");
  }

  lemma LateLines()
    ensures Strip("late") == "late" && SplitLines("late") == ["late"]
  {
    var c := "late";
    StripTrimmed(c);
    assert Join([c], '\n') == c;
    SplitLinesJoin([c]);
  }

  lemma ExampleNames()
    ensures NoBreaks("Ann") && NoBreaks("Acme") && SingleLine("Ann") && SingleLine("Acme")
  {
  }

  /** The built description splits back into its lines. */
  lemma DescriptionLinesSplit(managerId: int, managerName: string, client: string, comment: string)
    requires NoBreaks(managerName) && NoBreaks(client)
    ensures BuildDescription(managerId, managerName, client, comment) != ""
    ensures SplitLines(BuildDescription(managerId, managerName, client, comment))
         == DescriptionLines(managerId, managerName, client, comment)
  {
    var lines := DescriptionLines(managerId, managerName, client, comment);
    forall k | 0 <= k < |lines| ensures NoBreaks(lines[k]) {
      forall j | 0 <= j < |lines[k]| ensures !IsLineBreak(lines[k][j]) {
        LineHasNoBreak(managerId, managerName, client, comment, k, j);
      }
    }
    assert lines[|lines| - 1] != "" by {
      if |lines| == 4 {
        assert lines[3] == KvLine(ClientKey, client);
      } else {
        assert lines[|lines| - 1] == CloseTag;
      }
    }
    SplitLinesJoin(lines);
    assert Join(lines, '\n') != "" by {
      assert SplitLines(Join(lines, '\n')) != [];
    }
  }

  lemma LineHasNoBreak(managerId: int, managerName: string, client: string, comment: string, k: nat, j: nat)
    requires NoBreaks(managerName) && NoBreaks(client)
    requires k < |DescriptionLines(managerId, managerName, client, comment)|
    requires j < |DescriptionLines(managerId, managerName, client, comment)[k]|
    ensures !IsLineBreak(DescriptionLines(managerId, managerName, client, comment)[k][j])
  {
    var lines := DescriptionLines(managerId, managerName, client, comment);
    FixedTextsNoBreak();
    if k == 0 {
      KvNoBreak(SourceKey, SourceTag);
    } else if k == 1 {
      IntTextNoBreak(managerId);
      KvNoBreak(ManagerIdKey, IntToString(managerId));
    } else if k == 2 {
      KvNoBreak(ManagerNameKey, managerName);
    } else if k == 3 {
      KvNoBreak(ClientKey, client);
    } else if k == 4 || k == |lines| - 1 {
    } else {
      var body := SplitLines(Strip(comment));
      assert lines[k] == body[k - 5];
    }
  }

  lemma FixedTextsNoBreak()
    ensures NoBreaks(SourceKey) && NoBreaks(SourceTag) && NoBreaks(ManagerIdKey)
    ensures NoBreaks(ManagerNameKey) && NoBreaks(ClientKey) && NoBreaks(OpenTag) && NoBreaks(CloseTag)
  {
  }

  lemma KvNoBreak(key: string, value: string)
    requires NoBreaks(key) && NoBreaks(value)
    ensures NoBreaks(KvLine(key, value))
  {
    var l := KvLine(key, value);
    forall j | 0 <= j < |l| ensures !IsLineBreak(l[j]) {
      if j >= |key| + 2 {
        assert l[j] == value[j - |key| - 2];
      } else if j < |key| {
        assert l[j] == key[j];
      }
    }
  }

  lemma IntTextNoBreak(n: int)
    ensures NoBreaks(IntToString(n))
  {
    var s := IntToString(n);
    var d := NatToString(if n < 0 then -n else n);
    forall j | 0 <= j < |s| ensures !IsLineBreak(s[j]) {
      if n >= 0 {
        assert s[j] in d;
      } else if j > 0 {
        assert s[j] == d[j - 1];
        assert d[j - 1] in d;
      }
    }
  }

  lemma NotCommentLine(managerId: int, managerName: string, client: string, comment: string, k: nat)
    requires forall l | l in SplitLines(Strip(comment)) :: !KeyLine(l, "comment")
    requires k < |DescriptionLines(managerId, managerName, client, comment)|
    ensures !KeyLine(DescriptionLines(managerId, managerName, client, comment)[k], "comment")
  {
    var lines := DescriptionLines(managerId, managerName, client, comment);
    var l := lines[k];
    if k == 0 {
      assert l[0] == SourceKey[0];
      DiffersAt(l, 0);
    } else if k == 1 {
      assert l[0] == ManagerIdKey[0];
      DiffersAt(l, 0);
    } else if k == 2 {
      assert l[0] == ManagerNameKey[0];
      DiffersAt(l, 0);
    } else if k == 3 {
      assert l[1] == ClientKey[1];
      DiffersAt(l, 1);
    } else if k == 4 {
      assert l == OpenTag;
      DiffersAt(l, 7);
    } else if k == |lines| - 1 {
      assert l == CloseTag;
      DiffersAt(l, 0);
    } else {
      var body := SplitLines(Strip(comment));
      assert l == body[k - 5];
      assert l in body;
    }
  }

  /** A line whose i-th character does not lower-case to the i-th of `comment:`. */
  lemma DiffersAt(l: string, i: nat)
    requires i < 8 && i < |l| && LowerChar(l[i]) != "comment:"[i]
    ensures !KeyLine(l, "comment")
  {
    CommentKeyLower();
  }

  lemma CommentKeyLower()
    ensures Lower("comment") + ":" == "comment:"
  {
    LowerFixed("comment");
  }
}
