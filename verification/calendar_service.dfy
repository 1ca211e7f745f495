/** The calendar side of a meeting: the line-oriented event description (its encoder
    and its decoder), the patch sent when a meeting changes, and the event listing
    filter used by the reports. Calendar I/O is outside the model: the current
    description and the listed events are parameters. */
module CalendarService {
  import opened Wrappers
  import opened Text
  import opened Seqs

  const SourceTag := "qeepe_meets"
  const OpenTag := "comment<<<"
  const CloseTag := ">>>comment"
  const LegacyPrefix := "comment:"
  const SummaryPrefix := "Встреча: "

  const SourceKey := "source"
  const ManagerIdKey := "manager_id"
  const ManagerNameKey := "manager_name"
  const ClientKey := "client"
  const CommentKey := "comment"

  /** A value of the decoded description: text, or the integer `manager_id` becomes. */
  datatype Field = Text(s: string) | Number(n: int)

  type Fields = map<string, Field>

  /** A calendar event as the reports read it; a missing string member is "". */
  datatype CalendarEvent = CalendarEvent(
    id: string, summary: string, status: string, description: string,
    startDateTime: string, startDate: string)

  // ---------------------------------------------------------------- encoder

  /** The `key: value` line the encoder writes. */
  function KvLine(key: string, value: string): string {
    key + ": " + value
  }

  /** The lines of the description: four fixed lines, then a comment block when the
      trimmed comment is non-empty. */
  function DescriptionLines(managerId: int, managerName: string, client: string, comment: string): (r: seq<string>)
    ensures |r| >= 4
    ensures r[..4] == [KvLine(SourceKey, SourceTag), KvLine(ManagerIdKey, IntToString(managerId)),
                       KvLine(ManagerNameKey, managerName), KvLine(ClientKey, client)]
    ensures Strip(comment) == "" ==> |r| == 4
    ensures Strip(comment) != "" ==> r[4..] == [OpenTag] + SplitLines(Strip(comment)) + [CloseTag]
  {
    var head := [KvLine(SourceKey, SourceTag), KvLine(ManagerIdKey, IntToString(managerId)),
                 KvLine(ManagerNameKey, managerName), KvLine(ClientKey, client)];
    var c := Strip(comment);
    if c != "" then head + ([OpenTag] + SplitLines(c) + [CloseTag]) else head
  }

  /** `_build_description`: the lines joined with `\n`. */
  function BuildDescription(managerId: int, managerName: string, client: string, comment: string): string {
    Join(DescriptionLines(managerId, managerName, client, comment), '\n')
  }

  // ---------------------------------------------------------------- decoder

  /** `_is_kv_line`: a colon, and before the first one a non-empty trimmed key of
      alphanumerics, `_` and `-`. */
  predicate IsKvLine(s: string) {
    ':' in s && IsKey(KvKey(s))
  }

  /** The trimmed text before the first colon. */
  function KvKey(s: string): string
    requires ':' in s
  {
    Strip(s[..Find(s, ':')])
  }

  /** The trimmed text after the first colon. */
  function KvValue(s: string): string
    requires ':' in s
  {
    Strip(s[Find(s, ':') + 1..])
  }

  /** The comment a closing marker stores: the collected lines joined and trimmed. */
  function BlockText(commentLines: seq<string>): string {
    Strip(Join(commentLines, '\n'))
  }

  /** The comment of a legacy `comment:` line: the trimmed rest after the prefix. */
  function LegacyText(raw: string): string
    requires LegacyPrefix <= raw
  {
    Strip(raw[|LegacyPrefix|..])
  }

  predicate IsKey(k: string) {
    |k| > 0 && forall c | c in k :: IsAlnum(c) || c == '_' || c == '-'
  }

  /** The loop variables of the decoder. */
  datatype ScanState = ScanState(data: Fields, commentLines: seq<string>, inBlock: bool)

  const Start := ScanState(map[], [], false)

  /** One turn of the decoder's loop over the lines. */
  function Step(st: ScanState, line: string): ScanState {
    var raw := Strip(line);
    if raw == OpenTag then st.(inBlock := true, commentLines := [])
    else if raw == CloseTag then
      st.(inBlock := false, data := st.data[CommentKey := Text(BlockText(st.commentLines))])
    else if st.inBlock then st.(commentLines := st.commentLines + [line])
    else if LegacyPrefix <= raw then st.(data := st.data[CommentKey := Text(LegacyText(raw))])
    else if IsKvLine(raw) then st.(data := st.data[KvKey(raw) := Text(KvValue(raw))])
    else st
  }

  /** The decoder's loop run from state `st` over `lines`. */
  function Scan(st: ScanState, lines: seq<string>): ScanState
    decreases |lines|
  {
    if lines == [] then st else Scan(Step(st, lines[0]), lines[1..])
  }

  /** `int(str(v).strip() or "0")`, with 0 where that raises. */
  function CoerceId(f: Field): int {
    match f
    case Number(n) => n
    case Text(s) =>
      var t := Strip(s);
      match ParseInt(if t == "" then "0" else t)
      case Some(n) => n
      case None => 0
  }

  /** The type coercion after the loop: a present `manager_id` becomes an integer. */
  function Coerce(data: Fields): (r: Fields)
    ensures r.Keys == data.Keys
    ensures forall k | k in data && k != ManagerIdKey :: r[k] == data[k]
    ensures ManagerIdKey in data ==> r[ManagerIdKey] == Number(CoerceId(data[ManagerIdKey]))
  {
    if ManagerIdKey in data then data[ManagerIdKey := Number(CoerceId(data[ManagerIdKey]))] else data
  }

  /** The decoder on the lines of the description. */
  function ParseLines(lines: seq<string>): Fields {
    Coerce(Scan(Start, lines).data)
  }

  /** `\r\n` and then lone `\r` replaced by `\n`. */
  function NormalizeNewlines(s: string): string {
    ReplaceChar(ReplaceCrLf(s), '\r', "\n")
  }

  /** `parse_qeepe_description`. */
  function ParseDescription(description: string): Fields {
    ParseLines(SplitOn(NormalizeNewlines(description), '\n'))
  }

  /** One turn of the loop of `parse_qeepe_description`: proved to be `Step`. */
  method ScanLine(data0: Fields, lines0: seq<string>, inBlock0: bool, line: string)
    returns (data: Fields, commentLines: seq<string>, inCommentBlock: bool)
    requires forall k | k in data0 :: data0[k].Text?
    ensures ScanState(data, commentLines, inCommentBlock) == Step(ScanState(data0, lines0, inBlock0), line)
    ensures forall k | k in data :: data[k].Text?
  {
    data, commentLines, inCommentBlock := data0, lines0, inBlock0;
    var raw := Strip(line);
    if raw == OpenTag {
      inCommentBlock := true;
      commentLines := [];
    } else if raw == CloseTag {
      inCommentBlock := false;
      data := data[CommentKey := Text(BlockText(commentLines))];
    } else if inCommentBlock {
      commentLines := commentLines + [line];
    } else if LegacyPrefix <= raw {
      data := data[CommentKey := Text(LegacyText(raw))];
    } else if IsKvLine(raw) {
      data := data[KvKey(raw) := Text(KvValue(raw))];
    }
  }

  /** `parse_qeepe_description` as the loop it is: proved to compute `ParseDescription`. */
  method ParseQeepeDescription(description: string) returns (data: Fields)
    ensures data == ParseDescription(description)
    ensures forall k | k in data :: data[k].Number? <==> k == ManagerIdKey
  {
    var lines := SplitOn(NormalizeNewlines(description), '\n');
    data := map[];
    var commentLines: seq<string> := [];
    var inCommentBlock := false;
    var i := 0;
    while i < |lines|
      invariant 0 <= i <= |lines|
      invariant Scan(ScanState(data, commentLines, inCommentBlock), lines[i..]) == Scan(Start, lines)
      invariant forall k | k in data :: data[k].Text?
    {
      var line := lines[i];
      assert lines[i..][0] == line && lines[i..][1..] == lines[i + 1..];
      data, commentLines, inCommentBlock := ScanLine(data, commentLines, inCommentBlock, line);
      i := i + 1;
    }
    if ManagerIdKey in data {
      data := data[ManagerIdKey := Number(CoerceId(data[ManagerIdKey]))];
    }
  }

  // ---------------------------------------------------------------- decoder properties

  lemma {:induction false} ScanAppend(st: ScanState, a: seq<string>, b: seq<string>)
    ensures Scan(st, a + b) == Scan(Scan(st, a), b)
    decreases |a|
  {
    if a != [] {
      assert (a + b)[0] == a[0] && (a + b)[1..] == a[1..] + b;
      ScanAppend(Step(st, a[0]), a[1..], b);
    } else {
      assert a + b == b;
    }
  }

  /** Inside an open block, lines that do not trim to a marker are collected verbatim
      and touch nothing else. */
  lemma {:induction false} ScanInBlock(st: ScanState, lines: seq<string>)
    requires st.inBlock
    requires forall k | 0 <= k < |lines| :: Strip(lines[k]) != OpenTag && Strip(lines[k]) != CloseTag
    ensures Scan(st, lines) == st.(commentLines := st.commentLines + lines)
    decreases |lines|
  {
    if lines != [] {
      ScanInBlock(Step(st, lines[0]), lines[1..]);
      assert st.commentLines + [lines[0]] + lines[1..] == st.commentLines + lines;
    }
  }

  /** After an opening marker with no closing marker after it, the data is that of the
      lines before the block: an unclosed block sets no comment. */
  lemma UnclosedBlock(before: seq<string>, rest: seq<string>)
    requires forall k | 0 <= k < |rest| :: Strip(rest[k]) != CloseTag
    ensures ParseLines(before + [OpenTag] + rest) == ParseLines(before)
  {
    var st := Step(Scan(Start, before), OpenTag);
    assert Strip(OpenTag) == OpenTag by { StripTrimmed(OpenTag); }
    ScanAppend(Start, before + [OpenTag], rest);
    ScanAppend(Start, before, [OpenTag]);
    UnclosedTail(st, rest);
  }

  lemma {:induction false} UnclosedTail(st: ScanState, rest: seq<string>)
    requires st.inBlock
    requires forall k | 0 <= k < |rest| :: Strip(rest[k]) != CloseTag
    ensures Scan(st, rest).data == st.data
    decreases |rest|
  {
    if rest != [] {
      UnclosedTail(Step(st, rest[0]), rest[1..]);
    }
  }

  /** The coercion of `manager_id` commutes with storing any other key. */
  lemma CoerceUpdate(data: Fields, k: string, v: Field)
    requires k != ManagerIdKey
    ensures Coerce(data[k := v]) == Coerce(data)[k := v]
  {
    if ManagerIdKey in data {
      assert data[k := v][ManagerIdKey] == data[ManagerIdKey];
      assert data[k := v][ManagerIdKey := Number(CoerceId(data[ManagerIdKey]))]
          == data[ManagerIdKey := Number(CoerceId(data[ManagerIdKey]))][k := v];
    }
  }

  /** Outside a block, a line trimming to `comment: …` sets the comment to the trimmed rest,
      replacing any earlier comment. */
  lemma LegacyComment(before: seq<string>, line: string)
    requires !Scan(Start, before).inBlock
    requires LegacyPrefix <= Strip(line)
    ensures ParseLines(before + [line])
         == ParseLines(before)[CommentKey := Text(LegacyText(Strip(line)))]
  {
    var st := Scan(Start, before);
    ScanAppend(Start, before, [line]);
    assert Scan(st, [line]) == Step(st, line);
    var raw := Strip(line);
    assert raw[7] == ':' && OpenTag[7] != ':' && CloseTag[7] != ':';
    assert Step(st, line) == st.(data := st.data[CommentKey := Text(LegacyText(raw))]);
    CoerceUpdate(st.data, CommentKey, Text(LegacyText(raw)));
  }

  /** Outside a block, a `key: value` line stores the trimmed value under the trimmed key,
      overwriting an earlier value; unknown keys are kept. */
  lemma KeyValueLine(before: seq<string>, line: string, key: string, value: string)
    requires !Scan(Start, before).inBlock
    requires IsKey(key) && key != CommentKey && key != ManagerIdKey && ':' !in key
    requires Strip(line) == key + ":" + value
    ensures ParseLines(before + [line]) == ParseLines(before)[key := Text(Strip(value))]
  {
    var st := Scan(Start, before);
    ScanAppend(Start, before, [line]);
    assert Scan(st, [line]) == Step(st, line);
    var raw := Strip(line);
    assert raw[..|key|] == key && raw[|key|] == ':';
    FirstColon(key, raw);
    assert raw[|key| + 1..] == value;
    KeyTrimmed(key);
    NotLegacy(key, raw);
    assert Step(st, line) == st.(data := st.data[key := Text(Strip(value))]);
    CoerceUpdate(st.data, key, Text(Strip(value)));
  }

  lemma KeyTrimmed(key: string)
    requires IsKey(key)
    ensures Strip(key) == key
  {
    assert key[0] in key && key[|key| - 1] in key;
    StripTrimmed(key);
  }

  /** A line that is not a marker, not a legacy comment and not `key: value` changes nothing. */
  lemma OtherLine(before: seq<string>, line: string)
    requires !Scan(Start, before).inBlock
    requires Strip(line) != OpenTag && Strip(line) != CloseTag
    requires !(LegacyPrefix <= Strip(line)) && !IsKvLine(Strip(line))
    ensures ParseLines(before + [line]) == ParseLines(before)
  {
    ScanAppend(Start, before, [line]);
    assert Scan(Scan(Start, before), [line]) == Step(Scan(Start, before), line);
  }

  /** Only `manager_id` is ever an integer, and it is one whenever it is present. */
  lemma ParseNumbers(lines: seq<string>)
    ensures forall k | k in ParseLines(lines) :: ParseLines(lines)[k].Number? <==> k == ManagerIdKey
  {
    ScanTexts(Start, lines);
  }

  lemma {:induction false} ScanTexts(st: ScanState, lines: seq<string>)
    requires forall k | k in st.data :: st.data[k].Text?
    ensures forall k | k in Scan(st, lines).data :: Scan(st, lines).data[k].Text?
    decreases |lines|
  {
    if lines != [] {
      ScanTexts(Step(st, lines[0]), lines[1..]);
    }
  }

  /** A `manager_id` that is blank or not an integer decodes as 0. */
  lemma ManagerIdFallback(lines: seq<string>, s: string)
    requires ManagerIdKey in Scan(Start, lines).data && Scan(Start, lines).data[ManagerIdKey] == Text(s)
    requires Strip(s) == "" || ParseInt(Strip(s)).None?
    ensures ParseLines(lines)[ManagerIdKey] == Number(0)
  {
    if Strip(s) == "" {
      assert Strip("0") == "0" by { StripTrimmed("0"); }
      assert IsNumeral("0");
      assert DigitsValue("0") == 0 by { assert "0"[..0] == ""; }
    }
  }

  // ---------------------------------------------------------------- round trip

  /** Text that stays on one line of the description and is not altered by trimming. */
  predicate SingleLine(s: string) {
    '\n' !in s && '\r' !in s && Trimmed(s)
  }

  /** A comment whose lines survive the block: only `\n` breaks, no line trimming to a marker. */
  predicate BlockSafe(comment: string) {
    OnlyNewlineBreaks(comment)
    && forall l | l in SplitLines(Strip(comment)) :: Strip(l) != OpenTag && Strip(l) != CloseTag
  }

  /** What decoding a freshly built description yields. */
  function Decoded(managerId: int, managerName: string, client: string, comment: string): Fields {
    var head := map[SourceKey := Text(SourceTag), ManagerIdKey := Number(managerId),
                    ManagerNameKey := Text(managerName), ClientKey := Text(client)];
    var c := Strip(comment);
    if c == "" then head else head[CommentKey := Text(c)]
  }

  /** Decoding what the encoder wrote gives back the source tag, the manager id, name and
      client, and the trimmed comment (absent when empty). */
  lemma RoundTrip(managerId: int, managerName: string, client: string, comment: string)
    requires SingleLine(managerName) && SingleLine(client) && BlockSafe(comment)
    ensures ParseDescription(BuildDescription(managerId, managerName, client, comment))
         == Decoded(managerId, managerName, client, comment)
  {
    var lines := DescriptionLines(managerId, managerName, client, comment);
    LinesClean(managerId, managerName, client, comment);
    JoinedLines(lines);
    LinesRoundTrip(managerId, managerName, client, comment);
  }

  /** No line holds a line break the decoder splits on. */
  predicate Clean(lines: seq<string>) {
    forall k | 0 <= k < |lines| :: '\n' !in lines[k] && '\r' !in lines[k]
  }

  /** Clean lines joined with `\n` split back into themselves. */
  lemma JoinedLines(lines: seq<string>)
    requires |lines| >= 1 && Clean(lines)
    ensures SplitOn(NormalizeNewlines(Join(lines, '\n')), '\n') == lines
  {
    NoCarriageReturn(lines);
    SplitJoin(lines, '\n');
  }

  /** Scanning the encoder's lines yields the expected fields. */
  lemma LinesRoundTrip(managerId: int, managerName: string, client: string, comment: string)
    requires SingleLine(managerName) && SingleLine(client) && BlockSafe(comment)
    ensures ParseLines(DescriptionLines(managerId, managerName, client, comment))
         == Decoded(managerId, managerName, client, comment)
  {
    var lines := DescriptionLines(managerId, managerName, client, comment);
    var c := Strip(comment);
    var head := lines[..4];
    var st := HeaderScan(managerId, managerName, client);
    assert head == DescriptionLines(managerId, managerName, client, "")[..4];
    if c == "" {
      assert lines == head;
    } else {
      assert lines == head + lines[4..];
      ScanAppend(Start, head, lines[4..]);
      StripIdempotent(comment);
      StripShape(comment);
      TrimmedBreaks(comment);
      BlockScan(st, c);
      CoerceUpdate(st.data, CommentKey, Text(c));
    }
  }

  /** Trimming keeps a text free of line breaks other than `\n`. */
  lemma TrimmedBreaks(s: string)
    requires OnlyNewlineBreaks(s)
    ensures OnlyNewlineBreaks(Strip(s))
  {
    StripShape(s);
    var c := Strip(s);
    var i, j :| 0 <= i <= j <= |s| && c == s[i..j];
    forall k | 0 <= k < |c| ensures IsLineBreak(c[k]) ==> c[k] == '\n' {
      assert c[k] == s[i + k];
    }
  }

  /** A comment block around the lines of a trimmed, non-empty comment stores that comment. */
  lemma BlockScan(st: ScanState, c: string)
    requires c != "" && Trimmed(c) && OnlyNewlineBreaks(c)
    requires forall l | l in SplitLines(c) :: Strip(l) != OpenTag && Strip(l) != CloseTag
    ensures Scan(st, [OpenTag] + SplitLines(c) + [CloseTag]).data == st.data[CommentKey := Text(c)]
  {
    var body := SplitLines(c);
    var s1 := st.(inBlock := true, commentLines := []);
    BlockOpen(st, body);
    ScanAppend(s1, body, [CloseTag]);
    forall k | 0 <= k < |body| ensures Strip(body[k]) != OpenTag && Strip(body[k]) != CloseTag {
      assert body[k] in body;
    }
    ScanInBlock(s1, body);
    assert [] + body == body;
    BlockClose(st, c);
  }

  /** The opening tag starts a block with no lines yet. */
  lemma BlockOpen(st: ScanState, body: seq<string>)
    ensures Scan(st, [OpenTag] + body + [CloseTag])
      == Scan(st.(inBlock := true, commentLines := []), body + [CloseTag])
  {
    var all := [OpenTag] + body + [CloseTag];
    assert Strip(OpenTag) == OpenTag by { StripTrimmed(OpenTag); }
    assert Step(st, OpenTag) == st.(inBlock := true, commentLines := []);
    assert all[0] == OpenTag && all[1..] == body + [CloseTag];
  }

  /** The closing tag stores the block's lines joined back into the comment. */
  lemma BlockClose(st: ScanState, c: string)
    requires c != "" && Trimmed(c) && OnlyNewlineBreaks(c)
    ensures Scan(st.(inBlock := true, commentLines := SplitLines(c)), [CloseTag]).data
      == st.data[CommentKey := Text(c)]
  {
    var s2 := st.(inBlock := true, commentLines := SplitLines(c));
    assert Strip(CloseTag) == CloseTag by { StripTrimmed(CloseTag); }
    assert Scan(s2, [CloseTag]) == Step(s2, CloseTag);
    assert c[|c| - 1] != '\n' by { assert !IsSpace(c[|c| - 1]); }
    JoinSplitLines(c);
    StripTrimmed(c);
    assert BlockText(SplitLines(c)) == c;
  }


  /** The four fixed fields as the scan stores them, before coercion. */
  function HeaderData(managerId: int, managerName: string, client: string): Fields {
    map[SourceKey := Text(SourceTag), ManagerIdKey := Text(IntToString(managerId)),
        ManagerNameKey := Text(managerName), ClientKey := Text(client)]
  }

  /** The four fixed lines decode to the four fixed fields. */
  lemma HeaderScan(managerId: int, managerName: string, client: string) returns (st: ScanState)
    requires SingleLine(managerName) && SingleLine(client)
    ensures st == Scan(Start, DescriptionLines(managerId, managerName, client, "")[..4])
    ensures Coerce(st.data) == Decoded(managerId, managerName, client, "")
  {
    st := HeaderLines(managerId, managerName, client);
    HeaderCoerce(managerId, managerName, client);
  }

  lemma HeaderLines(managerId: int, managerName: string, client: string) returns (st: ScanState)
    requires SingleLine(managerName) && SingleLine(client)
    ensures st == Scan(Start, DescriptionLines(managerId, managerName, client, "")[..4])
    ensures st.data == HeaderData(managerId, managerName, client)
  {
    var l := DescriptionLines(managerId, managerName, client, "")[..4];
    var idText := IntToString(managerId);
    FixedKeys();
    IdTextTrimmed(managerId);
    var s1 := KvStep(Start, SourceKey, SourceTag);
    var s2 := KvStep(s1, ManagerIdKey, idText);
    var s3 := KvStep(s2, ManagerNameKey, managerName);
    var s4 := KvStep(s3, ClientKey, client);
    ScanFour(l, Start, s1, s2, s3, s4);
    st := s4;
  }

  lemma HeaderCoerce(managerId: int, managerName: string, client: string)
    ensures Coerce(HeaderData(managerId, managerName, client)) == Decoded(managerId, managerName, client, "")
  {
    var idText := IntToString(managerId);
    IdTextTrimmed(managerId);
    ParseIntToString(managerId);
    StripTrimmed(idText);
    assert CoerceId(Text(idText)) == managerId;
  }

  lemma ScanFour(l: seq<string>, s0: ScanState, s1: ScanState, s2: ScanState, s3: ScanState, s4: ScanState)
    requires |l| == 4
    requires s1 == Step(s0, l[0]) && s2 == Step(s1, l[1]) && s3 == Step(s2, l[2]) && s4 == Step(s3, l[3])
    ensures Scan(s0, l) == s4
  {
    assert l[3..][0] == l[3] && l[3..][1..] == [];
    assert Scan(s3, l[3..]) == s4;
    assert l[2..][0] == l[2] && l[2..][1..] == l[3..];
    assert Scan(s2, l[2..]) == s4;
    assert l[1..][0] == l[1] && l[1..][1..] == l[2..];
    assert Scan(s1, l[1..]) == s4;
  }

  lemma FixedKeys()
    ensures IsKey(SourceKey) && IsKey(ManagerIdKey) && IsKey(ManagerNameKey) && IsKey(ClientKey)
    ensures ':' !in SourceKey && ':' !in ManagerIdKey && ':' !in ManagerNameKey && ':' !in ClientKey
    ensures Trimmed(SourceTag)
  {
  }

  lemma IdTextTrimmed(n: int)
    ensures IntToString(n) != "" && Trimmed(IntToString(n))
  {
    var s := IntToString(n);
    var d := NatToString(if n < 0 then -n else n);
    assert d[0] in d && d[|d| - 1] in d;
    assert s[|s| - 1] == d[|d| - 1];
  }

  /** One encoder line decoded from outside a block. */
  lemma KvStep(st: ScanState, key: string, value: string) returns (next: ScanState)
    requires !st.inBlock && IsKey(key) && ':' !in key && key != CommentKey
    requires Trimmed(value)
    ensures next == Step(st, KvLine(key, value))
    ensures next == st.(data := st.data[key := Text(value)])
  {
    var line := KvLine(key, value);
    var tail := if value == "" then "" else " " + value;
    var raw := key + ":" + tail;
    StripKv(key, value);
    FirstColon(key, raw);
    assert raw[|key| + 1..] == tail;
    if value == "" {
      assert Strip("") == "";
    } else {
      StripSpaceTrimmed(value);
    }
    KeyTrimmed(key);
    NotLegacy(key, raw);
    next := Step(st, line);
  }

  lemma StripSpaceTrimmed(v: string)
    requires Trimmed(v) && v != ""
    ensures Strip(" " + v) == v
  {
    assert LStrip(" " + v) == LStrip(v) by { assert (" " + v)[1..] == v; }
    StripTrimmed(v);
  }

  lemma FirstColon(key: string, raw: string)
    requires ':' !in key && |raw| > |key| && raw[..|key|] == key && raw[|key|] == ':'
    ensures ':' in raw && Find(raw, ':') == |key| && KvKey(raw) == Strip(key)
    ensures KvValue(raw) == Strip(raw[|key| + 1..])
  {
    FindUnique(raw, ':', |key|);
  }

  lemma NotLegacy(key: string, raw: string)
    requires ':' !in key && key != CommentKey
    requires |raw| > |key| && raw[..|key|] == key && raw[|key|] == ':'
    ensures !(LegacyPrefix <= raw) && raw != OpenTag && raw != CloseTag
  {
    if |key| < 7 {
      assert LegacyPrefix[|key|] != raw[|key|];
    } else if |key| == 7 {
      assert raw[..7] == key != LegacyPrefix[..7];
    } else {
      assert raw[7] == key[7] != ':' == LegacyPrefix[7];
    }
    assert raw[|key|] == ':' && ':' !in OpenTag && ':' !in CloseTag;
  }

  lemma StripKv(key: string, value: string)
    requires IsKey(key) && Trimmed(value)
    ensures Strip(KvLine(key, value)) == key + ":" + (if value == "" then "" else " " + value)
  {
    assert key[0] in key;
    var line := KvLine(key, value);
    if value == "" {
      var t := key + ":";
      assert line == t + " ";
      assert RStrip(line) == RStrip(t) by { assert line[..|line| - 1] == t; }
      assert RStrip(t) == t;
      assert LStrip(t) == t;
      assert LStrip(line) == line;
    } else {
      assert Trimmed(line);
      StripTrimmed(line);
    }
  }

  /** The encoder's lines hold no line break when the name and client are single-line. */
  lemma LinesClean(managerId: int, managerName: string, client: string, comment: string)
    requires SingleLine(managerName) && SingleLine(client)
    ensures Clean(DescriptionLines(managerId, managerName, client, comment))
  {
    var lines := DescriptionLines(managerId, managerName, client, comment);
    HeadClean(managerId, managerName, client);
    assert lines[..4] == DescriptionLines(managerId, managerName, client, "")[..4];
    if Strip(comment) != "" {
      var body := SplitLines(Strip(comment));
      BodyClean(Strip(comment));
      CleanAppend([OpenTag], body);
      CleanAppend([OpenTag] + body, [CloseTag]);
      CleanAppend(lines[..4], [OpenTag] + body + [CloseTag]);
      assert lines == lines[..4] + ([OpenTag] + body + [CloseTag]);
    } else {
      assert lines == lines[..4];
    }
  }

  lemma HeadClean(managerId: int, managerName: string, client: string)
    requires SingleLine(managerName) && SingleLine(client)
    ensures Clean(DescriptionLines(managerId, managerName, client, "")[..4])
  {
    var idText := IntToString(managerId);
    assert '\n' !in idText && '\r' !in idText by {
      var d := NatToString(if managerId < 0 then -managerId else managerId);
      assert '\n' !in d && '\r' !in d;
    }
    KvClean(SourceKey, SourceTag);
    KvClean(ManagerIdKey, idText);
    KvClean(ManagerNameKey, managerName);
    KvClean(ClientKey, client);
  }

  lemma KvClean(key: string, value: string)
    requires '\n' !in key && '\r' !in key && '\n' !in value && '\r' !in value
    ensures '\n' !in KvLine(key, value) && '\r' !in KvLine(key, value)
  {
  }

  lemma BodyClean(c: string)
    ensures Clean(SplitLines(c))
  {
    var body := SplitLines(c);
    forall k | 0 <= k < |body| ensures '\n' !in body[k] && '\r' !in body[k] {
      assert NoBreaks(body[k]);
      forall j | 0 <= j < |body[k]| ensures body[k][j] != '\n' && body[k][j] != '\r' {
        assert !IsLineBreak(body[k][j]);
      }
    }
  }

  lemma CleanAppend(a: seq<string>, b: seq<string>)
    requires Clean(a) && Clean(b)
    ensures Clean(a + b)
  {
    forall k | 0 <= k < |a + b| ensures '\n' !in (a + b)[k] && '\r' !in (a + b)[k] {
      if k >= |a| {
        assert (a + b)[k] == b[k - |a|];
      }
    }
  }

  lemma {:induction false} NoCarriageReturn(lines: seq<string>)
    requires forall k | 0 <= k < |lines| :: '\r' !in lines[k]
    ensures '\r' !in Join(lines, '\n')
    decreases |lines|
  {
    if |lines| > 1 {
      NoCarriageReturn(lines[1..]);
    }
  }

  // ---------------------------------------------------------------- event fields

  /** `extract_qeepe_fields_from_event` without the date-times. */
  datatype QeepeFields = QeepeFields(
    eventId: string, summary: string, source: string, managerId: int,
    managerName: string, client: string, comment: string)

  /** A text field of the decoded description, "" when absent. */
  function TextField(data: Fields, key: string): string {
    if key in data && data[key].Text? then data[key].s else ""
  }

  function ExtractFields(e: CalendarEvent): QeepeFields {
    var parsed := ParseDescription(e.description);
    QeepeFields(e.id, e.summary, TextField(parsed, SourceKey),
                if ManagerIdKey in parsed then CoerceField(parsed[ManagerIdKey]) else 0,
                TextField(parsed, ManagerNameKey), TextField(parsed, ClientKey), TextField(parsed, CommentKey))
  }

  /** The event `create_meeting_event` inserts (date-times as already formatted strings). */
  datatype NewEvent = NewEvent(summary: string, description: string, start: string, end: string)

  function CreateEventBody(client: string, start: string, end: string, managerId: int,
                           managerName: string, comment: string): (e: NewEvent)
    ensures e.summary == SummaryPrefix + client && e.start == start && e.end == end
    ensures e.description == BuildDescription(managerId, managerName, client, comment)
  {
    NewEvent(SummaryPrefix + client, BuildDescription(managerId, managerName, client, comment), start, end)
  }

  /** Every event the bot creates carries the source tag, so the source filter keeps it. */
  lemma CreatedEventTagged(managerId: int, managerName: string, client: string, comment: string)
    requires SingleLine(managerName) && SingleLine(client) && BlockSafe(comment)
    ensures TextField(ParseDescription(BuildDescription(managerId, managerName, client, comment)), SourceKey)
         == SourceTag
  {
    RoundTrip(managerId, managerName, client, comment);
    DecodedSource(managerId, managerName, client, comment);
  }

  lemma DecodedSource(managerId: int, managerName: string, client: string, comment: string)
    ensures TextField(Decoded(managerId, managerName, client, comment), SourceKey) == SourceTag
  {
    assert |SourceKey| != |CommentKey|;
  }

  // ---------------------------------------------------------------- patch

  /** The optional arguments of `update_meeting_event`; date-times as already formatted strings. */
  datatype UpdateRequest = UpdateRequest(
    client: Option<string>, start: Option<string>, end: Option<string>,
    managerId: Option<int>, managerName: Option<string>, comment: Option<string>,
    summary: Option<string>, description: Option<string>)

  datatype Patch = Patch(start: Option<string>, end: Option<string>,
                         summary: Option<string>, description: Option<string>)

  /** What `update_meeting_event` does against the calendar. */
  datatype UpdateOutcome =
    | ReadFailed          // reading the current event for a rebuild raised
    | NoWrite             // empty patch: the event is only read back
    | Write(patch: Patch) // the patch sent

  predicate NeedsRebuild(req: UpdateRequest) {
    req.client.Some? || req.managerId.Some? || req.managerName.Some? || req.comment.Some?
  }

  /** `update_meeting_event`'s patch construction. `current` is the description of the
      event as read back (only consulted for a rebuild), or Err when that read raises. */
  method UpdateMeetingEvent(req: UpdateRequest, current: Result<string>) returns (out: UpdateOutcome)
    ensures out.ReadFailed? <==> req.description.None? && NeedsRebuild(req) && current.Err?
    ensures out.NoWrite? <==> req == UpdateRequest(None, None, None, None, None, None, None, None)
    ensures out.Write? ==> out.patch.start == req.start && out.patch.end == req.end
    ensures out.Write? ==>
      (out.patch.summary ==
         if req.summary.Some? then req.summary
         else if req.client.Some? then Some(SummaryPrefix + req.client.value) else None)
    ensures out.Write? && req.description.Some? ==> out.patch.description == req.description
    ensures out.Write? && req.description.None? && !NeedsRebuild(req) ==> out.patch.description.None?
    ensures out.Write? && req.description.None? && NeedsRebuild(req) ==>
      (current.Ok? && out.patch.description == Some(Rebuilt(req, ParseDescription(current.value))))
  {
    var patch := Patch(None, None, None, None);
    if req.start.Some? {
      patch := patch.(start := req.start);
    }
    if req.end.Some? {
      patch := patch.(end := req.end);
    }
    if req.summary.Some? {
      patch := patch.(summary := req.summary);
    } else if req.client.Some? {
      patch := patch.(summary := Some(SummaryPrefix + req.client.value));
    }
    if req.description.Some? {
      patch := patch.(description := req.description);
    } else if NeedsRebuild(req) {
      if current.Err? {
        return ReadFailed;
      }
      patch := patch.(description := Some(Rebuilt(req, ParseDescription(current.value))));
    }
    if patch == Patch(None, None, None, None) {
      return NoWrite;
    }
    return Write(patch);
  }

  /** The rebuilt description: each given field, else the one decoded from the current text. */
  function Rebuilt(req: UpdateRequest, parsed: Fields): string {
    var currId := if ManagerIdKey in parsed then CoerceField(parsed[ManagerIdKey]) else 0;
    BuildDescription(
      req.managerId.GetOr(currId),
      req.managerName.GetOr(TextField(parsed, ManagerNameKey)),
      req.client.GetOr(TextField(parsed, ClientKey)),
      req.comment.GetOr(TextField(parsed, CommentKey)))
  }

  /** `int(parsed.get("manager_id", 0) or 0)` on a decoded field. */
  function CoerceField(f: Field): int {
    match f
    case Number(n) => n
    case Text(_) => 0
  }

  /** Changing one field of a meeting the bot created keeps every other field: the rebuilt
      description decodes to the old fields with only the given ones replaced. */
  lemma RebuildKeepsFields(req: UpdateRequest, managerId: int, managerName: string, client: string, comment: string)
    requires SingleLine(managerName) && SingleLine(client) && BlockSafe(comment)
    requires req.managerName.Some? ==> SingleLine(req.managerName.value)
    requires req.client.Some? ==> SingleLine(req.client.value)
    requires req.comment.Some? ==> BlockSafe(req.comment.value)
    ensures ParseDescription(Rebuilt(req, ParseDescription(BuildDescription(managerId, managerName, client, comment))))
         == Decoded(req.managerId.GetOr(managerId), req.managerName.GetOr(managerName),
                    req.client.GetOr(client), req.comment.GetOr(Strip(comment)))
  {
    RoundTrip(managerId, managerName, client, comment);
    DecodedFields(managerId, managerName, client, comment);
    var newComment := req.comment.GetOr(Strip(comment));
    if req.comment.None? {
      StrippedBlockSafe(comment);
    }
    RoundTrip(req.managerId.GetOr(managerId), req.managerName.GetOr(managerName),
              req.client.GetOr(client), newComment);
  }

  /** The decoded fields read back as the values that were encoded. */
  lemma DecodedFields(managerId: int, managerName: string, client: string, comment: string)
    ensures var d := Decoded(managerId, managerName, client, comment);
      ManagerIdKey in d && CoerceField(d[ManagerIdKey]) == managerId
      && TextField(d, ManagerNameKey) == managerName && TextField(d, ClientKey) == client
      && TextField(d, CommentKey) == Strip(comment)
  {
    FixedKeys();
  }

  lemma StrippedBlockSafe(comment: string)
    requires BlockSafe(comment)
    ensures BlockSafe(Strip(comment))
  {
    var c := Strip(comment);
    StripIdempotent(comment);
    TrimmedBreaks(comment);
  }

  // ---------------------------------------------------------------- listing

  predicate Tagged(f: QeepeFields) {
    Strip(f.source) == SourceTag
  }

  /** The normalised events `list_qeepe_meetings_for_date` returns, in input order. */
  function Listed(events: seq<CalendarEvent>, onlySource: bool): seq<QeepeFields> {
    if events == [] then [] else Kept(ExtractFields(events[0]), onlySource) + Listed(events[1..], onlySource)
  }

  /** One normalised event, kept unless the source filter is on and it lacks the tag. */
  function Kept(f: QeepeFields, onlySource: bool): seq<QeepeFields> {
    if !onlySource || Tagged(f) then [f] else []
  }

  /** `list_qeepe_meetings_for_date` over the day's events. */
  method ListQeepeMeetingsForDate(events: seq<CalendarEvent>, onlySource: bool) returns (out: seq<QeepeFields>)
    ensures out == Listed(events, onlySource)
  {
    out := [];
    var i := 0;
    while i < |events|
      invariant 0 <= i <= |events|
      invariant out + Listed(events[i..], onlySource) == Listed(events, onlySource)
    {
      var fields := ExtractFields(events[i]);
      ListedCons(events, i, onlySource);
      AppendAssoc(out, Kept(fields, onlySource), Listed(events[i + 1..], onlySource));
      if !onlySource || Strip(fields.source) == SourceTag {
        out := out + [fields];
      } else {
        AppendNil(out);
      }
      i := i + 1;
    }
    assert events[i..] == [];
    AppendNil(out);
  }

  lemma ListedCons(events: seq<CalendarEvent>, i: int, onlySource: bool)
    requires 0 <= i < |events|
    ensures Listed(events[i..], onlySource)
         == Kept(ExtractFields(events[i]), onlySource) + Listed(events[i + 1..], onlySource)
  {
    assert events[i..][0] == events[i] && events[i..][1..] == events[i + 1..];
  }

  /** With the source filter on, exactly the tagged events are kept, in order; with it off,
      every event is kept. */
  lemma {:induction false} ListedExactly(events: seq<CalendarEvent>, onlySource: bool)
    ensures onlySource ==> forall f | f in Listed(events, onlySource) :: Tagged(f)
    ensures forall k | 0 <= k < |events| && (!onlySource || Tagged(ExtractFields(events[k]))) ::
      ExtractFields(events[k]) in Listed(events, onlySource)
    ensures !onlySource ==> |Listed(events, onlySource)| == |events|
    decreases |events|
  {
    if events != [] {
      ListedExactly(events[1..], onlySource);
      forall k | 1 <= k < |events| ensures events[k] == events[1..][k - 1] { }
    }
  }
}
