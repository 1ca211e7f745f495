/** The morning digest: the day's events grouped by manager in one message, managers with
    a Telegram handle first, then the meetings nobody is assigned to. The day's events are a
    parameter, each with its start already formatted as the digest shows it. */
module MorningDigest {
  import opened Wrappers
  import opened Text
  import opened Sorting
  import Seqs

  const Untitled := "Без названия"
  const Label := "менеджер"
  const DigestHeader := "📅 <b>Встречи на сегодня:</b>\n"
  const NoMeetingsText := "📅 <b>Встречи на сегодня:</b>\n\n✅ На сегодня встреч нет."
  const NoManagerTitle := "⚠️ <b>Без назначенного менеджера</b>"
  const CreateCallback := "meet:create"

  /** An event as the digest reads it: the summary (absent when the event has none), the
      description, and the start time text. */
  datatype DigestEvent = DigestEvent(summary: Option<string>, description: string, time: string)

  // ---------------------------------------------------------------- `@handle` in the summary

  /** `[a-zA-Z0-9_]`. */
  predicate IsHandleChar(c: char) {
    ('a' <= c <= 'z') || ('A' <= c <= 'Z') || ('0' <= c <= '9') || c == '_'
  }

  /** The number of handle characters `s` starts with. */
  function HandleRun(s: string): (n: nat)
    ensures n <= |s|
    ensures forall i | 0 <= i < n :: IsHandleChar(s[i])
    ensures n < |s| ==> !IsHandleChar(s[n])
  {
    if s != [] && IsHandleChar(s[0]) then 1 + HandleRun(s[1..]) else 0
  }

  /** `@([a-zA-Z0-9_]{5,32})` matches at index `i`. */
  predicate HandleAt(s: string, i: nat) {
    i < |s| && s[i] == '@' && HandleRun(s[i + 1..]) >= 5
  }

  function Min(a: nat, b: nat): nat {
    if a < b then a else b
  }

  /** The handle the pattern captures at `i`: as many handle characters as there are, at most 32. */
  function HandleFrom(s: string, i: nat): string
    requires HandleAt(s, i)
  {
    s[i + 1..i + 1 + Min(HandleRun(s[i + 1..]), 32)]
  }

  /** `USERNAME_RE.search(s).group(1)`, None when there is no match. */
  function SearchHandle(s: string): (r: Option<string>)
    ensures r.Some? ==> 5 <= |r.value| <= 32 && forall c | c in r.value :: IsHandleChar(c)
  {
    if s == [] then None
    else if HandleAt(s, 0) then Some(HandleFrom(s, 0))
    else SearchHandle(s[1..])
  }

  lemma HandleShift(s: string, j: nat)
    requires s != []
    ensures HandleAt(s[1..], j) <==> HandleAt(s, j + 1)
    ensures HandleAt(s[1..], j) ==> HandleFrom(s[1..], j) == HandleFrom(s, j + 1)
  {
    if j < |s| - 1 {
      assert s[1..][j] == s[j + 1];
      assert s[1..][j + 1..] == s[j + 2..];
      if HandleAt(s, j + 1) {
        var m := Min(HandleRun(s[j + 2..]), 32);
        assert HandleFrom(s, j + 1) == s[j + 2..j + 2 + m];
        assert s[1..][j + 1..j + 1 + m] == s[j + 2..j + 2 + m];
      }
    }
  }

  /** The search finds the leftmost match. */
  lemma {:induction false} SearchFindsFirst(s: string, i: nat)
    requires HandleAt(s, i) && forall j | 0 <= j < i :: !HandleAt(s, j)
    ensures SearchHandle(s) == Some(HandleFrom(s, i))
    decreases i
  {
    if i > 0 {
      assert !HandleAt(s, 0);
      forall j | 0 <= j < i - 1 ensures !HandleAt(s[1..], j) {
        HandleShift(s, j);
      }
      HandleShift(s, i - 1);
      SearchFindsFirst(s[1..], i - 1);
    }
  }

  /** The search finds nothing exactly when the pattern matches nowhere. */
  lemma {:induction false} SearchNone(s: string)
    ensures SearchHandle(s) == None <==> forall j | 0 <= j < |s| :: !HandleAt(s, j)
    decreases |s|
  {
    if s != [] && !HandleAt(s, 0) {
      SearchNone(s[1..]);
      forall j | 0 <= j < |s| - 1 ensures HandleAt(s[1..], j) <==> HandleAt(s, j + 1) {
        HandleShift(s, j);
      }
      assert forall j | 0 <= j < |s| :: HandleAt(s, j) ==> j > 0 && HandleAt(s[1..], j - 1);
    }
  }

  // ---------------------------------------------------------------- `Менеджер:` line

  /** The text up to the first `\n`. */
  function LineHead(s: string): (r: string)
    ensures '\n' !in r
  {
    if s == [] || s[0] == '\n' then [] else [s[0]] + LineHead(s[1..])
  }

  /** At a line start, `\s*<w>\s*:` with `w` in any letter case: the text after the colon. */
  function AfterWord(s: string, w: string): Option<string> {
    var u := LStrip(s);
    if |u| >= |w| && Lower(u[..|w|]) == w then
      var v := LStrip(u[|w|..]);
      if v != [] && v[0] == ':' then Some(v[1..]) else None
    else None
  }

  /** The name `\s*(.+?)\s*$` captures after the colon, stripped: the first text that is not
      white space, up to the end of its line, without trailing white space; "" when only
      white space follows. */
  function NameAfter(t: string): (r: string)
    ensures Trimmed(r) && '\n' !in r
  {
    var h := LineHead(LStrip(t));
    StripShape(h);
    var i, j :| 0 <= i <= j <= |h| && Strip(h) == h[i..j];
    assert forall c | c in h[i..j] :: c in h;
    Strip(h)
  }

  /** `MANAGER_LINE_RE.search(s)` with its name stripped: the first line start from which
      the label follows decides. */
  function SearchManagerLine(s: string, atLineStart: bool): (r: Option<string>)
    ensures r.Some? ==> Trimmed(r.value) && '\n' !in r.value
    decreases |s|
  {
    if atLineStart && AfterWord(s, Label).Some? then Some(NameAfter(AfterWord(s, Label).value))
    else if s == [] then None
    else SearchManagerLine(s[1..], s[0] == '\n')
  }

  /** The manager a meeting is grouped under and the title its section shows. */
  datatype Assignment = Assignment(key: string, title: string)

  /** `extract_manager`: a handle in the summary, else a non-empty `Менеджер:` name in the
      description, else nobody. */
  function ExtractManager(summary: string, description: string): (r: Option<Assignment>)
    ensures r.Some? ==> r.value.key == r.value.title && r.value.key != ""
  {
    match SearchHandle(summary)
    case Some(u) => Some(Assignment("@" + u, "@" + u))
    case None =>
      match SearchManagerLine(description, true)
      case Some(name) => if name != "" then Some(Assignment(name, name)) else None
      case None => None
  }

  /** A handle in the summary decides, whatever the description says: the key is the
      leftmost handle, with its `@`. */
  lemma HandleFirst(summary: string, description: string, i: nat)
    requires HandleAt(summary, i) && forall j | 0 <= j < i :: !HandleAt(summary, j)
    ensures ExtractManager(summary, description) == Some(Assignment("@" + HandleFrom(summary, i), "@" + HandleFrom(summary, i)))
  {
    SearchFindsFirst(summary, i);
  }

  /** Without a handle, a description whose first line is the label (in any letter case), a
      colon and a name is grouped under that name. */
  lemma LabelOnFirstLine(summary: string, word: string, name: string, rest: string)
    requires forall j | 0 <= j < |summary| :: !HandleAt(summary, j)
    requires |word| == 8 && Lower(word) == Label
    requires name != "" && Trimmed(name) && '\n' !in name
    requires rest == [] || rest[0] == '\n'
    ensures ExtractManager(summary, word + ": " + name + rest) == Some(Assignment(name, name))
  {
    SearchNone(summary);
    FirstLineName(word, name, rest);
  }

  lemma FirstLineName(word: string, name: string, rest: string)
    requires |word| == 8 && Lower(word) == Label
    requires name != "" && Trimmed(name) && '\n' !in name
    requires rest == [] || rest[0] == '\n'
    ensures SearchManagerLine(word + ": " + name + rest, true) == Some(name)
  {
    var t := " " + name + rest;
    assert word + ": " + name + rest == word + ":" + t;
    assert !IsSpace(word[0]) by {
      assert Lower(word)[0] == LowerChar(word[0]) == 'м';
    }
    WordThenColon(word, Label, t);
    NameOnLine(name, rest);
  }


  lemma WordThenColon(word: string, w: string, t: string)
    requires |word| == |w| && Lower(word) == w && word != [] && !IsSpace(word[0])
    ensures AfterWord(word + ":" + t, w) == Some(t)
  {
    var d := word + ":" + t;
    var v := ":" + t;
    assert d[0] == word[0];
    NoLeadingSpace(d);
    Seqs.AppendAssoc(word, ":", t);
    Seqs.AppendParts(word, v);
    NoLeadingSpace(v);
    AfterWordAt(d, w);
    assert d[|w| + 1..] == t;
  }

  /** The word, then at once the colon. */
  lemma AfterWordAt(s: string, w: string)
    requires LStrip(s) == s && |s| > |w| && Lower(s[..|w|]) == w
    requires LStrip(s[|w|..]) == s[|w|..] && s[|w|] == ':'
    ensures AfterWord(s, w) == Some(s[|w| + 1..])
  {
    assert s[|w|..][0] == ':' && s[|w|..][1..] == s[|w| + 1..];
  }

  lemma NoLeadingSpace(s: string)
    requires s != [] && !IsSpace(s[0])
    ensures LStrip(s) == s
  {
  }

  lemma NameOnLine(name: string, rest: string)
    requires name != "" && Trimmed(name) && '\n' !in name
    requires rest == [] || rest[0] == '\n'
    ensures NameAfter(" " + name + rest) == name
  {
    var t := " " + name + rest;
    assert t[1..] == name + rest;
    assert LStrip(t) == LStrip(name + rest);
    assert LStrip(name + rest) == name + rest;
    LineHeadPrefix(name, rest);
    StripTrimmed(name);
  }

  lemma {:induction false} LineHeadPrefix(a: string, rest: string)
    requires '\n' !in a && (rest == [] || rest[0] == '\n')
    ensures LineHead(a + rest) == a
    decreases |a|
  {
    if a != [] {
      assert (a + rest)[0] == a[0] && (a + rest)[1..] == a[1..] + rest;
      LineHeadPrefix(a[1..], rest);
    } else {
      assert a + rest == rest;
    }
  }

  /** The label, in any letter case, at index `i`. */
  predicate LabelAt(s: string, i: nat)
    requires i + 8 <= |s|
  {
    Lower(s[i..i + 8]) == Label
  }

  /** A description in which the label occurs nowhere, in any letter case, names no manager. */
  lemma {:induction false} NoLabelNoName(s: string, atLineStart: bool)
    requires forall i | 0 <= i <= |s| - 8 :: !LabelAt(s, i)
    ensures SearchManagerLine(s, atLineStart) == None
    decreases |s|
  {
    if atLineStart && AfterWord(s, Label).Some? {
      LStripShape(s);
      var u := LStrip(s);
      var k := |s| - |u|;
      assert s[k..k + 8] == u[..8];
      assert LabelAt(s, k);
      assert false;
    } else if s != [] {
      forall i | 0 <= i <= |s[1..]| - 8 ensures !LabelAt(s[1..], i) {
        assert !LabelAt(s, i + 1);
        assert s[1..][i..i + 8] == s[i + 1..i + 1 + 8];
      }
      NoLabelNoName(s[1..], s[0] == '\n');
    }
  }

  // ---------------------------------------------------------------- grouping

  /** The summary the digest shows, `Без названия` for an event without one. */
  function Summary(e: DigestEvent): string {
    if e.summary.Some? then e.summary.value else Untitled
  }

  /** The digest line of one event. */
  function ItemLine(e: DigestEvent): (r: string)
    ensures r != [] && r[0] == '•'
  {
    "• <b>" + e.time + "</b> — " + Summary(e)
  }

  function KeyOf(e: DigestEvent): Option<string> {
    match ExtractManager(Summary(e), e.description)
    case Some(a) => Some(a.key)
    case None => None
  }

  /** The managers in the order they first appear. */
  function Keys(events: seq<DigestEvent>): (r: seq<string>)
    ensures forall i, j | 0 <= i < j < |r| :: r[i] != r[j]
  {
    if events == [] then []
    else
      var ks := Keys(events[..|events| - 1]);
      var key := KeyOf(events[|events| - 1]);
      if key.Some? && key.value !in ks then ks + [key.value] else ks
  }

  /** The lines of the events grouped under `k`, in event order. */
  function Items(events: seq<DigestEvent>, k: string): seq<string> {
    if events == [] then []
    else
      var e := events[|events| - 1];
      Items(events[..|events| - 1], k) + (if KeyOf(e) == Some(k) then [ItemLine(e)] else [])
  }

  /** The lines of the events without a manager, in event order. */
  function Unassigned(events: seq<DigestEvent>): seq<string> {
    if events == [] then []
    else
      var e := events[|events| - 1];
      Unassigned(events[..|events| - 1]) + (if KeyOf(e) == None then [ItemLine(e)] else [])
  }

  /** A digest section: its title and its lines. */
  datatype Section = Section(title: string, items: seq<string>)

  /** The grouping loop of `main`: `keys` is the order of the dictionary `grouped`. */
  method Collect(events: seq<DigestEvent>) returns (keys: seq<string>, groups: map<string, Section>, unassigned: seq<string>)
    ensures keys == Keys(events) && unassigned == Unassigned(events)
    ensures forall k :: k in groups <==> k in keys
    ensures forall k | k in groups :: groups[k] == Section(k, Items(events, k))
  {
    keys, groups, unassigned := [], map[], [];
    for i := 0 to |events|
      invariant keys == Keys(events[..i]) && unassigned == Unassigned(events[..i])
      invariant forall k :: k in groups <==> k in keys
      invariant forall k | k in groups :: groups[k] == Section(k, Items(events[..i], k))
    {
      var e := events[i];
      var summary := if e.summary.Some? then e.summary.value else Untitled;
      var line := "• <b>" + e.time + "</b> — " + summary;
      var a := ExtractManager(summary, e.description);
      GroupStep(events, i);
      assert line == ItemLine(e);
      if a.Some? {
        var key := a.value.key;
        assert KeyOf(e) == Some(key) && a.value.title == key;
        ghost var before := groups;
        var block := if key in groups then groups[key] else Section(a.value.title, []);
        if key !in groups {
          NewKeyEmpty(events[..i], key);
          keys := keys + [key];
        }
        groups := groups[key := Section(block.title, block.items + [line])];
        forall k | k in groups ensures groups[k] == Section(k, Items(events[..i + 1], k)) {
          ItemsStep(events, i, k);
          if k != key {
            assert groups[k] == before[k];
          }
        }
      } else {
        assert KeyOf(e) == None;
        unassigned := unassigned + [line];
        forall k | k in groups ensures groups[k] == Section(k, Items(events[..i + 1], k)) {
          ItemsStep(events, i, k);
        }
      }
    }
    assert events[..|events|] == events;
  }

  /** One more event: how the managers, the sections and the unassigned lines grow. */
  lemma GroupStep(events: seq<DigestEvent>, i: nat)
    requires i < |events|
    ensures var p := events[..i]; var e := events[i]; var key := KeyOf(e);
      && Keys(events[..i + 1]) == (if key.Some? && key.value !in Keys(p) then Keys(p) + [key.value] else Keys(p))
      && Unassigned(events[..i + 1]) == Unassigned(p) + (if key == None then [ItemLine(e)] else [])
  {
    assert events[..i + 1][..i] == events[..i];
  }

  lemma NewKeyEmpty(events: seq<DigestEvent>, k: string)
    requires k !in Keys(events)
    ensures Items(events, k) == []
  {
    KeysExactly(events);
  }

  lemma ItemsStep(events: seq<DigestEvent>, i: nat, k: string)
    requires i < |events|
    ensures Items(events[..i + 1], k)
         == Items(events[..i], k) + (if KeyOf(events[i]) == Some(k) then [ItemLine(events[i])] else [])
  {
    assert events[..i + 1][..i] == events[..i];
  }

  /** The managers are exactly the keys of the events, each listed once. */
  lemma {:induction false} KeysExactly(events: seq<DigestEvent>)
    ensures forall k :: k in Keys(events) <==> exists j | 0 <= j < |events| :: KeyOf(events[j]) == Some(k)
    ensures forall k | k !in Keys(events) :: Items(events, k) == []
    decreases |events|
  {
    if events != [] {
      var init := events[..|events| - 1];
      KeysExactly(init);
      forall k ensures k in Keys(events) <==> exists j | 0 <= j < |events| :: KeyOf(events[j]) == Some(k) {
        if k in Keys(events) && k !in Keys(init) {
          assert KeyOf(events[|events| - 1]) == Some(k);
        }
        if exists j | 0 <= j < |events| :: KeyOf(events[j]) == Some(k) {
          var j :| 0 <= j < |events| && KeyOf(events[j]) == Some(k);
          if j < |events| - 1 {
            assert init[j] == events[j];
          }
        }
      }
    }
  }

  /** The number of lines in the sections of `ks`. */
  function TotalItems(events: seq<DigestEvent>, ks: seq<string>): nat {
    if ks == [] then 0 else |Items(events, ks[0])| + TotalItems(events, ks[1..])
  }

  lemma {:induction false} TotalAppend(events: seq<DigestEvent>, ks: seq<string>, k: string)
    ensures TotalItems(events, ks + [k]) == TotalItems(events, ks) + |Items(events, k)|
    decreases |ks|
  {
    if ks != [] {
      assert (ks + [k])[1..] == ks[1..] + [k];
      TotalAppend(events, ks[1..], k);
    }
  }

  /** Adding an event adds one line to the sections of `ks` when its key is among them. */
  lemma {:induction false} TotalStep(events: seq<DigestEvent>, ks: seq<string>)
    requires events != []
    requires forall i, j | 0 <= i < j < |ks| :: ks[i] != ks[j]
    ensures var e := events[|events| - 1];
      TotalItems(events, ks) == TotalItems(events[..|events| - 1], ks)
        + (if KeyOf(e).Some? && KeyOf(e).value in ks then 1 else 0)
    decreases |ks|
  {
    if ks != [] {
      TotalStep(events, ks[1..]);
    }
  }

  /** Every event gives exactly one line: in the section of its manager or among the
      unassigned ones. */
  lemma {:induction false} EveryEventOnce(events: seq<DigestEvent>)
    ensures |Unassigned(events)| + TotalItems(events, Keys(events)) == |events|
    decreases |events|
  {
    if events != [] {
      var init := events[..|events| - 1];
      var e := events[|events| - 1];
      EveryEventOnce(init);
      KeysExactly(init);
      TotalStep(events, Keys(init));
      if KeyOf(e).Some? && KeyOf(e).value !in Keys(init) {
        TotalAppend(events, Keys(init), KeyOf(e).value);
      }
    }
  }

  // ---------------------------------------------------------------- ordering and layout

  /** `sort_key`: `(0, lower)` for a handle, `(1, lower)` otherwise, as one string. */
  function SortKey(k: string): string {
    (if StartsWith(k, "@") then "0" else "1") + Lower(k)
  }

  /** The sections in digest order. */
  function Sections(events: seq<DigestEvent>): seq<Section> {
    var ks := StableSortBy(Keys(events), SortKey);
    seq(|ks|, i requires 0 <= i < |ks| => Section(ks[i], Items(events, ks[i])))
  }

  /** The digest of the day: nothing, or the manager sections and the unassigned lines. */
  datatype Digest = NoMeetings | Digest(sections: seq<Section>, unassigned: seq<string>)

  function DigestOf(events: seq<DigestEvent>): Digest {
    if events == [] then NoMeetings else Digest(Sections(events), Unassigned(events))
  }

  /** The lines of one manager section: title, items, an empty line. */
  function SectionBlock(sec: Section): seq<string> {
    ["👤 <b>" + sec.title + "</b>"] + sec.items + [""]
  }

  /** The lines of the manager sections in order. */
  function SectionLines(ss: seq<Section>): seq<string> {
    if ss == [] then [] else SectionBlock(ss[0]) + SectionLines(ss[1..])
  }

  /** The lines of the digest; the unassigned section last, and only when it has lines. */
  function Lines(ss: seq<Section>, unassigned: seq<string>): seq<string> {
    [DigestHeader] + SectionLines(ss) + (if unassigned == [] then [] else [NoManagerTitle] + unassigned)
  }

  /** The message text. */
  function Message(d: Digest): string {
    match d
    case NoMeetings => NoMeetingsText
    case Digest(ss, u) => Strip(Join(Lines(ss, u), '\n'))
  }

  /** `main`: the message and the callback of its one button (none without meetings). */
  method SendDigest(events: seq<DigestEvent>) returns (text: string, button: Option<string>)
    ensures text == Message(DigestOf(events))
    ensures button.Some? <==> events != []
    ensures button.Some? ==> button.value == CreateCallback
  {
    if events == [] {
      return NoMeetingsText, None;
    }
    var keys, groups, unassigned := Collect(events);
    var sorted := StableSortBy(keys, SortKey);
    SortedKeys(events);
    ghost var ss := Sections(events);
    var lines := [DigestHeader];
    for i := 0 to |sorted|
      invariant lines == [DigestHeader] + SectionLines(ss[..i])
    {
      var block := groups[sorted[i]];
      assert block == ss[i];
      SectionLinesStep(ss, i);
      Seqs.AppendAssoc([DigestHeader], SectionLines(ss[..i]), SectionBlock(ss[i]));
      lines := lines + SectionBlock(block);
    }
    assert ss[..|sorted|] == ss;
    if unassigned != [] {
      lines := lines + ([NoManagerTitle] + unassigned);
    }
    assert lines == Lines(ss, unassigned);
    assert DigestOf(events) == Digest(ss, unassigned);
    text := Strip(Join(lines, '\n'));
    button := Some(CreateCallback);
  }

  lemma SectionLinesStep(ss: seq<Section>, i: nat)
    requires i < |ss|
    ensures SectionLines(ss[..i + 1]) == SectionLines(ss[..i]) + SectionBlock(ss[i])
  {
    SectionLinesAppend(ss[..i], [ss[i]]);
    assert ss[..i + 1] == ss[..i] + [ss[i]];
    assert SectionLines([ss[i]]) == SectionBlock(ss[i]);
  }

  lemma {:induction false} SectionLinesAppend(a: seq<Section>, b: seq<Section>)
    ensures SectionLines(a + b) == SectionLines(a) + SectionLines(b)
    decreases |a|
  {
    if a == [] {
      assert a + b == b;
    } else {
      assert (a + b)[0] == a[0] && (a + b)[1..] == a[1..] + b;
      SectionLinesAppend(a[1..], b);
    }
  }

  /** Sorting keeps the managers. */
  lemma SortedKeys(events: seq<DigestEvent>)
    ensures forall k :: k in StableSortBy(Keys(events), SortKey) <==> k in Keys(events)
  {
    var ks := StableSortBy(Keys(events), SortKey);
    SortPermutation(Keys(events), SortKey);
    forall k ensures k in ks <==> k in Keys(events) {
      assert k in ks <==> k in multiset(ks);
      assert k in Keys(events) <==> k in multiset(Keys(events));
    }
  }

  /** Each manager has one section, under its own name, holding its lines; no section is empty. */
  lemma SectionsCover(events: seq<DigestEvent>)
    ensures forall k :: k in Keys(events) <==> exists i | 0 <= i < |Sections(events)| :: Sections(events)[i].title == k
    ensures forall i | 0 <= i < |Sections(events)| ::
      Sections(events)[i].items == Items(events, Sections(events)[i].title) && Sections(events)[i].items != []
  {
    var ks := StableSortBy(Keys(events), SortKey);
    var ss := Sections(events);
    SortedKeys(events);
    KeysExactly(events);
    forall k ensures k in Keys(events) <==> exists i | 0 <= i < |ss| :: ss[i].title == k {
      if k in Keys(events) {
        var i :| 0 <= i < |ks| && ks[i] == k;
        assert ss[i].title == k;
      }
      if exists i | 0 <= i < |ss| :: ss[i].title == k {
        var i :| 0 <= i < |ss| && ss[i].title == k;
        assert ks[i] in ks;
      }
    }
    forall i | 0 <= i < |ss| ensures ss[i].items != [] {
      assert ks[i] in ks;
      var j :| 0 <= j < |events| && KeyOf(events[j]) == Some(ks[i]);
      ItemsHas(events, j);
    }
  }

  lemma {:induction false} ItemsHas(events: seq<DigestEvent>, j: nat)
    requires j < |events| && KeyOf(events[j]).Some?
    ensures ItemLine(events[j]) in Items(events, KeyOf(events[j]).value)
    decreases |events|
  {
    if j < |events| - 1 {
      assert events[..|events| - 1][j] == events[j];
      ItemsHas(events[..|events| - 1], j);
    }
  }

  /** Handle sections come first; within each kind, names go by their lower-case form. */
  lemma SectionsOrdered(events: seq<DigestEvent>, i: nat, j: nat)
    requires i < j < |Sections(events)|
    ensures var a := Sections(events)[i].title; var b := Sections(events)[j].title;
      (StartsWith(b, "@") ==> StartsWith(a, "@"))
      && (StartsWith(a, "@") == StartsWith(b, "@") ==> StrLe(Lower(a), Lower(b)))
  {
    var ks := StableSortBy(Keys(events), SortKey);
    SortSorted(Keys(events), SortKey);
    var a := ks[i];
    var b := ks[j];
    assert StrLe(SortKey(a), SortKey(b));
    assert SortKey(a)[1..] == Lower(a) && SortKey(b)[1..] == Lower(b);
    if StartsWith(a, "@") == StartsWith(b, "@") {
      assert SortKey(a)[0] == SortKey(b)[0];
    }
  }

  /** The unassigned section is shown exactly when some event has no manager. */
  lemma UnassignedShown(events: seq<DigestEvent>)
    requires events != []
    ensures NoManagerTitle in Lines(Sections(events), Unassigned(events))
        <==> exists j | 0 <= j < |events| :: KeyOf(events[j]) == None
  {
    var ss := Sections(events);
    var u := Unassigned(events);
    UnassignedExactly(events);
    if u == [] {
      SectionsCover(events);
      forall i | 0 <= i < |ss| ensures forall x | x in ss[i].items :: x != [] && x[0] == '•' {
        ItemsBulleted(events, ss[i].title);
      }
      TitleHidden(ss);
    } else {
      TitleShown(ss, u);
    }
  }

  lemma TitleShown(ss: seq<Section>, u: seq<string>)
    requires u != []
    ensures NoManagerTitle in Lines(ss, u)
  {
    var a := [DigestHeader] + SectionLines(ss);
    var b := [NoManagerTitle] + u;
    assert Lines(ss, u) == a + b;
    assert (a + b)[|a|] == NoManagerTitle;
  }

  lemma TitleHidden(ss: seq<Section>)
    requires forall i | 0 <= i < |ss| :: forall x | x in ss[i].items :: x != [] && x[0] == '•'
    ensures NoManagerTitle !in Lines(ss, [])
  {
    SectionLinesUnmarked(ss);
    assert DigestHeader[0] != NoManagerTitle[0];
    assert Lines(ss, []) == [DigestHeader] + SectionLines(ss);
  }

  lemma UnassignedExactly(events: seq<DigestEvent>)
    ensures Unassigned(events) != [] <==> exists j | 0 <= j < |events| :: KeyOf(events[j]) == None
  {
    if Unassigned(events) != [] {
      var j := UnassignedWitness(events);
    }
    forall j | 0 <= j < |events| && KeyOf(events[j]) == None
      ensures Unassigned(events) != []
    {
      UnassignedOne(events[j]);
      UnassignedHas(events, j);
    }
  }

  /** An event without a manager puts a line in the unassigned block. */
  lemma UnassignedHas(events: seq<DigestEvent>, j: nat)
    requires j < |events| && Unassigned([events[j]]) != []
    ensures Unassigned(events) != []
  {
    var pre, post := events[..j], events[j + 1..];
    Seqs.SplitAt(events, j);
    UnassignedAppend(pre + [events[j]], post);
    UnassignedAppend(pre, [events[j]]);
    assert |Unassigned(events)| >= |Unassigned([events[j]])|;
  }

  /** The unassigned block is built event by event: it distributes over concatenation. */
  lemma {:induction false} UnassignedAppend(a: seq<DigestEvent>, b: seq<DigestEvent>)
    ensures Unassigned(a + b) == Unassigned(a) + Unassigned(b)
    decreases |b|
  {
    if b == [] {
      assert a + b == a;
    } else {
      var n := |b| - 1;
      var tail := if KeyOf(b[n]) == None then [ItemLine(b[n])] else [];
      assert (a + b)[..|a + b| - 1] == a + b[..n];
      assert (a + b)[|a + b| - 1] == b[n];
      assert Unassigned(a + b) == Unassigned(a + b[..n]) + tail;
      assert Unassigned(b) == Unassigned(b[..n]) + tail;
      UnassignedAppend(a, b[..n]);
      Seqs.AppendAssoc(Unassigned(a), Unassigned(b[..n]), tail);
    }
  }

  /** A single event's line, when it has no manager. */
  lemma UnassignedOne(e: DigestEvent)
    ensures Unassigned([e]) == if KeyOf(e) == None then [ItemLine(e)] else []
  {
    assert [e][..0] == [];
  }

  /** A non-empty unassigned block comes from some event without a manager. */
  lemma {:induction false} UnassignedWitness(events: seq<DigestEvent>) returns (j: nat)
    requires Unassigned(events) != []
    ensures j < |events| && KeyOf(events[j]) == None
    decreases |events|
  {
    var n := |events| - 1;
    if KeyOf(events[n]) == None {
      j := n;
    } else {
      j := UnassignedWitness(events[..n]);
      assert events[..n][j] == events[j];
    }
  }



  lemma {:induction false} ItemsBulleted(events: seq<DigestEvent>, k: string)
    ensures forall x | x in Items(events, k) :: x != [] && x[0] == '•'
    decreases |events|
  {
    if events != [] {
      ItemsBulleted(events[..|events| - 1], k);
    }
  }

  /** No line of the manager sections is the unassigned title. */
  lemma {:induction false} SectionLinesUnmarked(ss: seq<Section>)
    requires forall i | 0 <= i < |ss| :: forall x | x in ss[i].items :: x != [] && x[0] == '•'
    ensures NoManagerTitle !in SectionLines(ss)
    decreases |ss|
  {
    if ss != [] {
      SectionLinesUnmarked(ss[1..]);
      assert ("👤 <b>" + ss[0].title + "</b>")[0] != NoManagerTitle[0];
      assert NoManagerTitle !in ss[0].items by {
        assert NoManagerTitle[0] != '•';
      }
    }
  }
}
