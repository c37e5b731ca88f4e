/**
 The alert a record is rendered to: a Markdown text of at most `limit` runes. Values are escaped, then cut
 to the room that is left; a line whose fixed parts do not fit is left out.
 */
module Markdown {
  import opened Lines
  import opened Utf8

  /** A string constant of the program, in UTF-8. */
  function Text(s: string): Str {
    Encode(seq(|s|, i requires 0 <= i < |s| => s[i] as int))
  }

  lemma TextIsValid(s: string)
    ensures Valid(Text(s)) && RuneLen(Text(s)) == |s|
  {
    DecodeEncoded(seq(|s|, i requires 0 <= i < |s| => s[i] as int));
  }

  const BACKSLASH: byte := 92
  const BACKTICK: byte := 96
  const LESS: byte := 60
  const GREATER: byte := 62

  const TITLE := "### 🚨 "
  const FIELD_OPEN := "> **"
  const FIELD_CLOSE := "：** "
  const HEADING := "**日志内容**"
  const QUOTE := "> "
  const WARNING_OPEN := "<font color=\"warning\">"
  const WARNING_CLOSE := "</font>"
  const MARKER := "...[truncated]"

  datatype Field = Field(name: Str, value: Str, highlighted: bool)

  datatype Alert = Alert(title: Str, fields: seq<Field>, body: Str)

  // ----- escaping

  predicate Special(b: byte) {
    b == BACKSLASH || b == BACKTICK || b == LESS || b == GREATER
  }

  function Escape(value: Str): Str {
    if value == [] then []
    else (if Special(value[0]) then [BACKSLASH, value[0]] else [value[0]]) + Escape(value[1..])
  }

  function Unescape(s: Str): Str {
    if s == [] then []
    else if s[0] == BACKSLASH && |s| > 1 then [s[1]] + Unescape(s[2..])
    else [s[0]] + Unescape(s[1..])
  }

  /** Escaping goes byte by byte, and puts a backslash before the backslash, the backtick and the angle brackets. */
  lemma {:induction false} EscapeByteByByte(value: Str, b: byte)
    ensures Escape(value + [b])
            == Escape(value) + if b as char in "\\`<>" then ['\\' as int, b] else [b]
  {
    if value == [] {
      assert [b][1..] == [];
      assert [] + [b] == [b];
    } else {
      assert (value + [b])[1..] == value[1..] + [b];
      EscapeByteByByte(value[1..], b);
    }
  }

  lemma {:induction false} UnescapeEscape(value: Str)
    ensures Unescape(Escape(value)) == value
  {
    if value != [] {
      var head, rest := if Special(value[0]) then [BACKSLASH, value[0]] else [value[0]], Escape(value[1..]);
      assert Escape(value)[|head|..] == rest;
      UnescapeEscape(value[1..]);
      assert [value[0]] + value[1..] == value;
    }
  }

  /** No delimiter stands without a backslash of its own before it. */
  predicate Inert(s: Str) {
    s == [] || if s[0] == BACKSLASH then |s| > 1 && Special(s[1]) && Inert(s[2..]) else !Special(s[0]) && Inert(s[1..])
  }

  /** The escaped values are the inert strings: each of them is the escape of what it decodes to. */
  lemma {:induction false} EscapedIsInert(s: Str)
    ensures Inert(s) <==> s == Escape(Unescape(s))
  {
    if s == [] {
    } else if s[0] == BACKSLASH && |s| > 1 {
      var value := Unescape(s);
      assert value[1..] == Unescape(s[2..]);
      EscapedIsInert(s[2..]);
      if Special(s[1]) {
        assert Escape(value) == [BACKSLASH, s[1]] + Escape(value[1..]);
        assert Escape(value)[2..] == Escape(value[1..]);
        assert s == [BACKSLASH, s[1]] + s[2..];
      } else {
        assert Escape(value)[0] == s[1];
      }
    } else {
      var value := Unescape(s);
      assert value[1..] == Unescape(s[1..]);
      EscapedIsInert(s[1..]);
      if !Special(s[0]) {
        assert Escape(value)[1..] == Escape(value[1..]);
        assert s == [s[0]] + s[1..];
      } else {
        assert Escape(value)[0] == BACKSLASH && Escape(value)[1] == s[0];
      }
    }
  }

  lemma {:induction false} EscapeHoldsNoLineFeed(value: Str)
    requires LF !in value
    ensures LF !in Escape(value)
  {
    if value != [] {
      EscapeHoldsNoLineFeed(value[1..]);
    }
  }

  // ----- cutting

  /** At most `limit` runes; a longer value ends with the marker if that leaves room for anything else. */
  function Truncate(value: Str, limit: nat): Str {
    RunesAreScalars(value);
    var runes := Runes(value);
    if |runes| <= limit then value
    else if limit <= |MARKER| then Encode(runes[..limit])
    else Encode(runes[..limit - |MARKER|]) + Text(MARKER)
  }

  /** A value that fits is unchanged; any other is cut to exactly the limit and keeps its first runes. */
  lemma TruncateKeeps(value: Str, limit: nat)
    ensures RuneLen(value) <= limit ==> Truncate(value, limit) == value
    ensures RuneLen(value) > limit ==>
              && RuneLen(Truncate(value, limit)) == limit
              && Runes(Truncate(value, limit))
                 == if limit <= |MARKER| then Runes(value)[..limit]
                    else Runes(value)[..limit - |MARKER|] + Runes(Text(MARKER))
  {
    RunesAreScalars(value);
    TextIsValid(MARKER);
    var runes := Runes(value);
    if |runes| > limit {
      if limit <= |MARKER| {
        DecodeEncoded(runes[..limit]);
      } else {
        RunesAfterEncoded(runes[..limit - |MARKER|], Text(MARKER));
      }
    }
  }

  // ----- lengths of concatenations

  lemma LenConcat(a: Str, b: Str)
    requires Valid(a) || Valid(b)
    ensures RuneLen(a + b) == RuneLen(a) + RuneLen(b)
  {
    if Valid(a) {
      RunesAfterValid(a, b);
    } else {
      RunesAreScalars(b);
      RunesBefore(a, b);
    }
  }

  lemma {:induction false} EncodeConcat(a: seq<rune>, b: seq<rune>)
    requires Scalars(a) && Scalars(b)
    ensures Encode(a + b) == Encode(a) + Encode(b)
  {
    if a == [] {
      assert a + b == b;
    } else {
      assert (a + b)[1..] == a[1..] + b;
      EncodeConcat(a[1..], b);
    }
  }

  lemma ValidConcat(a: Str, b: Str)
    requires Valid(a) && Valid(b)
    ensures Valid(a + b)
  {
    RunesAreScalars(a);
    RunesAreScalars(b);
    RunesAfterValid(a, b);
    EncodeConcat(Runes(a), Runes(b));
  }

  lemma LineFeedIsValid()
    ensures Valid([LF]) && RuneLen([LF]) == 1
  {
    assert Runes([LF]) == [LF as int] + Runes([]);
    assert Encode([LF as int]) == EncodeRune(LF as int) + Encode([]);
  }

  // ----- the writer

  /** A line below what has been written. */
  function Below(content: Str, line: Str): Str {
    if content == [] then line else content + [LF] + line
  }

  lemma BelowLen(content: Str, line: Str)
    ensures RuneLen(Below(content, line)) == RuneLen(content) + (if content == [] then 0 else 1) + RuneLen(line)
  {
    LineFeedIsValid();
    LenConcat(content, [LF]);
    assert content + [LF] + line == content + ([LF] + line);
    LenConcat([LF], line);
    RunesBefore(content, [LF] + line);
  }

  lemma FramedLen(prefix: Str, value: Str, suffix: Str)
    requires Valid(prefix) && Valid(suffix)
    ensures RuneLen(prefix + value + suffix) == RuneLen(prefix) + RuneLen(value) + RuneLen(suffix)
  {
    LenConcat(prefix, value);
    LenConcat(prefix + value, suffix);
  }

  function FieldOpen(f: Field): Str {
    var prefix := Text(FIELD_OPEN) + f.name + Text(FIELD_CLOSE);
    if f.highlighted then prefix + Text(WARNING_OPEN) else prefix
  }

  function FieldEnd(f: Field): Str {
    if f.highlighted then Text(WARNING_CLOSE) else []
  }

  function FieldLine(f: Field): Str {
    FieldOpen(f) + Escape(f.value) + FieldEnd(f)
  }

  lemma NothingDecoded()
    ensures RuneLen([]) == 0 && Valid([])
  {
  }

  lemma FieldFrameIsValid(f: Field)
    requires Valid(f.name)
    ensures Valid(FieldOpen(f)) && Valid(FieldEnd(f))
  {
    hide Runes, Valid, Text;
    TextIsValid(FIELD_OPEN);
    TextIsValid(FIELD_CLOSE);
    TextIsValid(WARNING_OPEN);
    TextIsValid(WARNING_CLOSE);
    NothingDecoded();
    ValidConcat(Text(FIELD_OPEN), f.name);
    ValidConcat(Text(FIELD_OPEN) + f.name, Text(FIELD_CLOSE));
    ValidConcat(Text(FIELD_OPEN) + f.name + Text(FIELD_CLOSE), Text(WARNING_OPEN));
  }

  /** What has been written and how many runes may still be. */
  datatype Page = Page(content: Str, remaining: int)

  /** Written plus left: the limit the writer was made with. */
  function Limit(p: Page): int {
    RuneLen(p.content) + p.remaining
  }

  /** Runes a line takes beside its value. */
  function FixedLength(p: Page, prefix: Str, suffix: Str): nat {
    (if p.content == [] then 0 else 1) + RuneLen(prefix) + RuneLen(suffix)
  }

  predicate HasRoom(p: Page, prefix: Str, suffix: Str) {
    p.remaining >= FixedLength(p, prefix, suffix)
  }

  /** A line with its prefix, its suffix and as much of the value as there is room for, or no line. */
  function WithLine(p: Page, prefix: Str, value: Str, suffix: Str): Page {
    if !HasRoom(p, prefix, suffix) then p
    else
      var room := p.remaining - FixedLength(p, prefix, suffix);
      Page(Below(p.content, prefix + Truncate(value, room) + suffix), room - RuneLen(Truncate(value, room)))
  }

  function WithField(p: Page, f: Field): Page {
    if f.value == [] then p else WithLine(p, FieldOpen(f), Escape(f.value), FieldEnd(f))
  }

  function WithBlankLine(p: Page): Page {
    if p.remaining > 0 && p.content != [] then Page(p.content + [LF], p.remaining - 1) else p
  }

  class MarkdownWriter {
    var content: Str
    var remaining: int

    constructor (limit: int)
      ensures State() == Page([], limit)
    {
      content, remaining := [], limit;
    }

    function State(): Page
      reads this
    {
      Page(content, remaining)
    }

    method Line(prefix: Str, value: Str, suffix: Str) returns (written: bool)
      modifies this
      ensures written <==> HasRoom(old(State()), prefix, suffix)
      ensures State() == WithLine(old(State()), prefix, value, suffix)
      ensures !written ==> State() == old(State())
    {
      hide Truncate, RuneLen, Valid;
      var separator: Str := [];
      if |content| > 0 {
        separator := [LF];
      }
      LineFeedIsValid();
      NothingDecoded();
      var fixedLength := RuneLen(separator) + RuneLen(prefix) + RuneLen(suffix);
      if remaining < fixedLength {
        return false;
      }
      var rendered := Truncate(value, remaining - fixedLength);
      content := content + separator;
      content := content + prefix;
      content := content + rendered;
      content := content + suffix;
      remaining := remaining - (fixedLength + RuneLen(rendered));
      assert content == Below(old(content), prefix + rendered + suffix);
      written := true;
    }

    /** A field without a value takes no line, and one that does not fit is left out. */
    method WriteField(field: Field)
      modifies this
      ensures State() == WithField(old(State()), field)
    {
      hide Text, Truncate, Runes;
      if field.value == [] {
        return;
      }
      var prefix, suffix := Text(FIELD_OPEN) + field.name + Text(FIELD_CLOSE), [];
      if field.highlighted {
        prefix := prefix + Text(WARNING_OPEN);
        suffix := Text(WARNING_CLOSE);
      }
      var _ := Line(prefix, Escape(field.value), suffix);
    }

    method BlankLine()
      modifies this
      ensures State() == WithBlankLine(old(State()))
    {
      if remaining > 0 && |content| > 0 {
        content := content + [LF];
        remaining := remaining - 1;
      }
    }
  }

  /** Every write keeps the sum of what is written and what is left, and never overdraws it. */
  lemma LineKeepsLimit(p: Page, prefix: Str, value: Str, suffix: Str)
    requires Valid(prefix) && Valid(suffix)
    ensures Limit(WithLine(p, prefix, value, suffix)) == Limit(p)
    ensures p.remaining >= 0 ==> WithLine(p, prefix, value, suffix).remaining >= 0
  {
    hide Truncate, Runes, Valid;
    if HasRoom(p, prefix, suffix) {
      var room := p.remaining - FixedLength(p, prefix, suffix);
      TruncateKeeps(value, room);
      FramedLen(prefix, Truncate(value, room), suffix);
      BelowLen(p.content, prefix + Truncate(value, room) + suffix);
    }
  }

  lemma BlankLineKeepsLimit(p: Page)
    ensures Limit(WithBlankLine(p)) == Limit(p)
    ensures p.remaining >= 0 ==> WithBlankLine(p).remaining >= 0
  {
    hide Runes, Valid;
    LineFeedIsValid();
    LenConcat(p.content, [LF]);
  }

  // ----- the whole alert

  /** What the program passes: its constant field names. */
  predicate NamesAreValid(fields: seq<Field>) {
    forall i | 0 <= i < |fields| :: Valid(fields[i].name)
  }

  function FieldLines(fields: seq<Field>): seq<Str> {
    if fields == [] then []
    else
      var n := |fields| - 1;
      FieldLines(fields[..n]) + if fields[n].value == [] then [] else [FieldLine(fields[n])]
  }

  function BodyLine(line: Str): Str {
    Text(QUOTE + WARNING_OPEN) + Escape(line) + Text(WARNING_CLOSE)
  }

  function BodyLines(lines: seq<Str>): (quoted: seq<Str>)
    ensures |quoted| == |lines|
  {
    seq(|lines|, i requires 0 <= i < |lines| => BodyLine(lines[i]))
  }

  function TitleLine(a: Alert): Str {
    Text(TITLE) + Escape(a.title)
  }

  function HeadLines(a: Alert): seq<Str> {
    [TitleLine(a)] + FieldLines(a.fields) + [[], Text(HEADING)]
  }

  function AllLines(a: Alert): (lines: seq<Str>)
    ensures |lines| > 0
  {
    HeadLines(a) + BodyLines(Split(a.body))
  }

  /** The alert with nothing cut and nothing left out. */
  function Complete(a: Alert): Str {
    Join(AllLines(a))
  }

  lemma JoinStarts(lines: seq<Str>)
    requires |lines| >= 1 && lines[0] != []
    ensures Join(lines) != []
  {
  }

  /** While everything fits, the next line does too. */
  lemma {:induction false} NextLineFits(lines: seq<Str>, line: Str, all: seq<Str>)
    requires lines + [line] <= all && (|lines| > 0 ==> lines[0] != [])
    ensures lines != [] ==> Join(lines) != [] && Join(lines + [line]) == Below(Join(lines), line)
    ensures RuneLen(Join(lines + [line])) <= RuneLen(Join(all))
    decreases |all|
  {
    hide Runes;
    var shorter := all[..|all| - 1];
    assert all == shorter + [all[|all| - 1]];
    if lines != [] {
      JoinConcat(lines, [line]);
      JoinStarts(lines);
    }
    if |lines| + 1 == |all| {
      assert lines + [line] == all;
    } else {
      NextLineFits(lines, line, shorter);
      JoinConcat(shorter, [all[|all| - 1]]);
      LineFeedIsValid();
      LenConcat(Join(shorter), [LF]);
      assert Join(all) == Join(shorter) + ([LF] + all[|all| - 1]);
      LenConcat([LF], all[|all| - 1]);
      RunesBefore(Join(shorter), [LF] + all[|all| - 1]);
    }
  }

  function JoinAll(lines: seq<Str>): Str {
    if lines == [] then [] else Join(lines)
  }

  // ----- rendering

  function WithFields(p: Page, fields: seq<Field>): Page {
    if fields == [] then p else WithField(WithFields(p, fields[..|fields| - 1]), fields[|fields| - 1])
  }

  /** The quoted lines up to the first one that is refused. */
  function WithBody(p: Page, lines: seq<Str>): Page
    decreases |lines|
  {
    if lines == [] || !HasRoom(p, Text(QUOTE + WARNING_OPEN), Text(WARNING_CLOSE)) then p
    else WithBody(WithLine(p, Text(QUOTE + WARNING_OPEN), Escape(lines[0]), Text(WARNING_CLOSE)), lines[1..])
  }

  function RenderedHead(a: Alert, limit: nat): Page {
    var titled := WithLine(Page([], limit), Text(TITLE), Escape(a.title), []);
    WithLine(WithBlankLine(WithFields(titled, a.fields)), Text(HEADING), [], [])
  }

  function Rendered(a: Alert, limit: nat): Page {
    WithBody(RenderedHead(a, limit), Split(a.body))
  }

  lemma OneFieldMore(p: Page, fields: seq<Field>, f: Field)
    ensures WithFields(p, fields + [f]) == WithField(WithFields(p, fields), f)
  {
    hide WithField;
    assert (fields + [f])[..|fields|] == fields;
  }

  /** A field there is room for is written, whatever became of the fields before it. */
  lemma EveryFieldHasItsChance(p: Page, fields: seq<Field>, f: Field)
    ensures var before, after := WithFields(p, fields), WithFields(p, fields + [f]);
            if f.value == [] || !HasRoom(before, FieldOpen(f), FieldEnd(f)) then after == before
            else
              var room := before.remaining - FixedLength(before, FieldOpen(f), FieldEnd(f));
              after.content == Below(before.content, FieldOpen(f) + Truncate(Escape(f.value), room) + FieldEnd(f))
  {
    hide FieldOpen, FieldEnd, HasRoom, FixedLength, Truncate, Escape, Below, WithFields, RuneLen;
    OneFieldMore(p, fields, f);
  }

  method Render(a: Alert, limit: nat) returns (text: Str)
    ensures text == Rendered(a, limit).content
  {
    hide WithLine, WithField, Text, Escape, Split, WithBlankLine;
    var w := new MarkdownWriter(limit);
    var _ := w.Line(Text(TITLE), Escape(a.title), []);
    ghost var titled := w.State();
    var i := 0;
    while i < |a.fields|
      invariant 0 <= i <= |a.fields|
      invariant w.State() == WithFields(titled, a.fields[..i])
    {
      assert a.fields[..i + 1][..i] == a.fields[..i];
      w.WriteField(a.fields[i]);
      i := i + 1;
    }
    assert a.fields[..i] == a.fields;
    w.BlankLine();
    var _ := w.Line(Text(HEADING), [], []);
    var pieces := Split(a.body);
    var n := 0;
    while n < |pieces|
      invariant 0 <= n <= |pieces|
      invariant WithBody(w.State(), pieces[n..]) == Rendered(a, limit)
    {
      assert pieces[n..][1..] == pieces[n + 1..];
      var written := w.Line(Text(QUOTE + WARNING_OPEN), Escape(pieces[n]), Text(WARNING_CLOSE));
      if !written {
        break;
      }
      n := n + 1;
    }
    text := w.content;
  }

  /** The limit is kept, and as long as the complete alert fits, these lines have been written. */
  ghost predicate Progress(p: Page, limit: nat, all: seq<Str>, lines: seq<Str>) {
    && Limit(p) == limit
    && p.remaining >= 0
    && (RuneLen(JoinAll(all)) <= limit ==> p.content == JoinAll(lines))
  }

  lemma JoinOne(line: Str)
    ensures Join([line]) == line
  {
  }

  /** When the complete alert fits there is room for its next line. */
  lemma NextLine(p: Page, limit: nat, all: seq<Str>, lines: seq<Str>, line: Str)
    requires Progress(p, limit, all, lines) && RuneLen(JoinAll(all)) <= limit
    requires lines + [line] <= all && (lines != [] ==> lines[0] != [])
    ensures (if p.content == [] then 0 else 1) + RuneLen(line) <= p.remaining
    ensures Below(p.content, line) == JoinAll(lines + [line])
    ensures lines != [] ==> p.content != []
  {
    hide Join, RuneLen;
    NextLineFits(lines, line, all);
    BelowLen(p.content, line);
    JoinOne(line);
    assert [] + [line] == [line];
  }

  lemma LineProgress(p: Page, limit: nat, all: seq<Str>, lines: seq<Str>, prefix: Str, value: Str, suffix: Str)
    requires Progress(p, limit, all, lines) && Valid(prefix) && Valid(suffix)
    requires lines + [prefix + value + suffix] <= all && (lines != [] ==> lines[0] != [])
    ensures Progress(WithLine(p, prefix, value, suffix), limit, all, lines + [prefix + value + suffix])
    ensures RuneLen(JoinAll(all)) <= limit ==> HasRoom(p, prefix, suffix)
  {
    hide Truncate, Runes, Valid, JoinAll, Below;
    LineKeepsLimit(p, prefix, value, suffix);
    if RuneLen(JoinAll(all)) <= limit {
      NextLine(p, limit, all, lines, prefix + value + suffix);
      FramedLen(prefix, value, suffix);
      TruncateKeeps(value, p.remaining - FixedLength(p, prefix, suffix));
    }
  }

  lemma BlankLineProgress(p: Page, limit: nat, all: seq<Str>, lines: seq<Str>)
    requires Progress(p, limit, all, lines) && lines + [[]] <= all && lines != [] && lines[0] != []
    ensures Progress(WithBlankLine(p), limit, all, lines + [[]])
  {
    hide JoinAll, RuneLen;
    BlankLineKeepsLimit(p);
    if RuneLen(JoinAll(all)) <= limit {
      NothingDecoded();
      NextLine(p, limit, all, lines, []);
    }
  }

  lemma StartProgress(limit: nat, all: seq<Str>)
    ensures Progress(Page([], limit), limit, all, []) && Valid([])
  {
    NothingDecoded();
  }

  lemma FieldFrame(f: Field)
    requires Valid(f.name)
    ensures FieldLine(f) == FieldOpen(f) + Escape(f.value) + FieldEnd(f)
    ensures Valid(FieldOpen(f)) && Valid(FieldEnd(f))
  {
    hide FieldOpen, FieldEnd, Escape;
    FieldFrameIsValid(f);
  }

  lemma {:induction false} FieldLinesOfPrefix(fields: seq<Field>, n: nat)
    requires n <= |fields|
    ensures FieldLines(fields[..n]) <= FieldLines(fields)
    ensures n < |fields| ==>
              FieldLines(fields[..n + 1])
              == FieldLines(fields[..n]) + if fields[n].value == [] then [] else [FieldLine(fields[n])]
    decreases |fields|
  {
    hide FieldLine;
    assert fields[..|fields|] == fields;
    if n < |fields| {
      var last := |fields| - 1;
      assert fields[..n + 1][..n] == fields[..n];
      assert fields[..last][..n] == fields[..n];
      FieldLinesOfPrefix(fields[..last], n);
    }
  }

  lemma FixedTextIsValid()
    ensures Valid(Text(TITLE)) && Valid(Text(HEADING))
    ensures Valid(Text(QUOTE + WARNING_OPEN)) && Valid(Text(WARNING_CLOSE))
    ensures Text(TITLE) != []
  {
    TextIsValid(TITLE);
    TextIsValid(HEADING);
    TextIsValid(QUOTE + WARNING_OPEN);
    TextIsValid(WARNING_CLOSE);
    NothingDecoded();
  }

  lemma AlertFrame(a: Alert)
    ensures TitleLine(a) == Text(TITLE) + Escape(a.title) + []
    ensures TitleLine(a) != []
    ensures [TitleLine(a)] <= AllLines(a)
    ensures FieldLines([]) == []
    ensures Complete(a) == JoinAll(AllLines(a))
    ensures Valid(Text(TITLE)) && Valid(Text(HEADING))
    ensures Valid(Text(QUOTE + WARNING_OPEN)) && Valid(Text(WARNING_CLOSE))
    ensures JoinAll([]) == []
  {
    FixedTextIsValid();
  }

  lemma FieldInAll(a: Alert, i: nat)
    requires i < |a.fields| && a.fields[i].value != []
    ensures [TitleLine(a)] + FieldLines(a.fields[..i]) + [FieldLine(a.fields[i])] <= AllLines(a)
  {
    hide TitleLine, FieldLine, FieldLines, BodyLines, Text;
    FieldLinesOfPrefix(a.fields, i);
    FieldLinesOfPrefix(a.fields, i + 1);
  }

  lemma {:induction false} FieldsProgress(a: Alert, limit: nat, n: nat)
    requires NamesAreValid(a.fields) && n <= |a.fields|
    ensures var titled := WithLine(Page([], limit), Text(TITLE), Escape(a.title), []);
            Progress(WithFields(titled, a.fields[..n]), limit, AllLines(a), [TitleLine(a)] + FieldLines(a.fields[..n]))
  {
    hide Truncate, Runes, Valid, JoinAll, RuneLen, AllLines, FieldLines, FieldLine;
    hide Text, TitleLine, WithLine, Progress, Escape, FieldOpen, FieldEnd;
    var titled := WithLine(Page([], limit), Text(TITLE), Escape(a.title), []);
    AlertFrame(a);
    if n == 0 {
      StartProgress(limit, AllLines(a));
      assert [] + [TitleLine(a)] == [TitleLine(a)] == [TitleLine(a)] + [];
      LineProgress(Page([], limit), limit, AllLines(a), [], Text(TITLE), Escape(a.title), []);
      assert a.fields[..0] == [];
    } else {
      var f := a.fields[n - 1];
      var lines := [TitleLine(a)] + FieldLines(a.fields[..n - 1]);
      FieldsProgress(a, limit, n - 1);
      FieldLinesOfPrefix(a.fields, n - 1);
      assert a.fields[..n][..n - 1] == a.fields[..n - 1];
      if f.value != [] {
        FieldInAll(a, n - 1);
        FieldFrame(f);
        LineProgress(WithFields(titled, a.fields[..n - 1]), limit, AllLines(a), lines, FieldOpen(f), Escape(f.value),
                     FieldEnd(f));
        assert lines + [FieldLine(f)] == [TitleLine(a)] + (FieldLines(a.fields[..n - 1]) + [FieldLine(f)]);
      } else {
        assert FieldLines(a.fields[..n - 1]) + [] == FieldLines(a.fields[..n - 1]);
      }
    }
  }

  lemma HeadInAll(a: Alert)
    ensures var lines := [TitleLine(a)] + FieldLines(a.fields);
            && lines + [[]] <= AllLines(a) && lines + [[]] + [Text(HEADING)] == HeadLines(a) <= AllLines(a)
            && HeadLines(a) + BodyLines([]) == HeadLines(a) && HeadLines(a) + BodyLines(Split(a.body)) == AllLines(a)
  {
    hide TitleLine, FieldLine, FieldLines, BodyLines, Text;
    assert BodyLines([]) == [];
  }

  lemma HeadProgress(a: Alert, limit: nat)
    requires NamesAreValid(a.fields)
    ensures Progress(RenderedHead(a, limit), limit, AllLines(a), HeadLines(a))
  {
    hide Truncate, Runes, Valid, JoinAll, RuneLen, AllLines, HeadLines, FieldLines;
    hide Text, TitleLine, WithLine, WithBlankLine, Progress, Escape, WithFields;
    var n := |a.fields|;
    AlertFrame(a);
    HeadInAll(a);
    FieldsProgress(a, limit, n);
    assert a.fields[..n] == a.fields;
    var lines := [TitleLine(a)] + FieldLines(a.fields);
    var filled := WithFields(WithLine(Page([], limit), Text(TITLE), Escape(a.title), []), a.fields);
    BlankLineProgress(filled, limit, AllLines(a), lines);
    assert Text(HEADING) + [] + [] == Text(HEADING);
    NothingDecoded();
    LineProgress(WithBlankLine(filled), limit, AllLines(a), lines + [[]], Text(HEADING), [], []);
  }

  lemma StoppedProgress(p: Page, limit: nat, all: seq<Str>, lines: seq<Str>)
    requires Progress(p, limit, all, lines) && RuneLen(JoinAll(all)) > limit
    ensures Progress(p, limit, all, all)
  {
  }

  lemma BodyLineParts(line: Str)
    ensures BodyLine(line) == Text(QUOTE + WARNING_OPEN) + Escape(line) + Text(WARNING_CLOSE)
  {
    hide Text, Escape;
  }

  lemma PieceInAll(a: Alert, n: nat)
    requires n < |Split(a.body)|
    ensures var pieces := Split(a.body);
            && HeadLines(a) + BodyLines(pieces[..n]) + [BodyLine(pieces[n])]
               == HeadLines(a) + BodyLines(pieces[..n + 1])
            && HeadLines(a) + BodyLines(pieces[..n + 1]) <= AllLines(a)
            && HeadLines(a)[0] == TitleLine(a)
            && BodyLine(pieces[n]) == Text(QUOTE + WARNING_OPEN) + Escape(pieces[n]) + Text(WARNING_CLOSE)
  {
    hide TitleLine, FieldLine, FieldLines, Split, BodyLine;
    BodyLineParts(Split(a.body)[n]);
  }

  lemma {:induction false} BodyProgress(a: Alert, limit: nat, p: Page, n: nat)
    requires n <= |Split(a.body)|
    requires Progress(p, limit, AllLines(a), HeadLines(a) + BodyLines(Split(a.body)[..n]))
    ensures Progress(WithBody(p, Split(a.body)[n..]), limit, AllLines(a), AllLines(a))
    decreases |Split(a.body)| - n
  {
    hide Truncate, Runes, Valid, JoinAll, RuneLen, AllLines, HeadLines, BodyLines;
    hide Text, TitleLine, WithLine, Progress, Escape, BodyLine, Split;
    var pieces := Split(a.body);
    AlertFrame(a);
    HeadInAll(a);
    if n == |pieces| {
      assert pieces[..n] == pieces;
    } else {
      PieceInAll(a, n);
      var opening, closing := Text(QUOTE + WARNING_OPEN), Text(WARNING_CLOSE);
      LineProgress(p, limit, AllLines(a), HeadLines(a) + BodyLines(pieces[..n]), opening, Escape(pieces[n]), closing);
      if HasRoom(p, opening, closing) {
        BodyProgress(a, limit, WithLine(p, opening, Escape(pieces[n]), closing), n + 1);
        assert pieces[n..][1..] == pieces[n + 1..];
      } else {
        StoppedProgress(p, limit, AllLines(a), HeadLines(a) + BodyLines(pieces[..n]));
      }
    }
  }

  /**
   The text never exceeds the limit, and nothing is cut or left out exactly when the complete alert fits.
   */
  lemma RenderedWithinLimit(a: Alert, limit: nat)
    requires NamesAreValid(a.fields)
    ensures RuneLen(Rendered(a, limit).content) <= limit
    ensures Rendered(a, limit).content == Complete(a) <==> RuneLen(Complete(a)) <= limit
  {
    hide Runes, AllLines, HeadLines, BodyLines, RenderedHead, WithBody, Split, Complete, RuneLen, JoinAll;
    AlertFrame(a);
    HeadInAll(a);
    HeadProgress(a, limit);
    assert Split(a.body)[..0] == [] && Split(a.body)[0..] == Split(a.body);
    BodyProgress(a, limit, RenderedHead(a, limit), 0);
  }

  // ----- what a complete alert reads like

  /** One line for each field with a value. */
  function FieldsText(fields: seq<Field>): Str {
    if fields == [] then []
    else
      var n := |fields| - 1;
      FieldsText(fields[..n]) + if fields[n].value == [] then [] else [10] + FieldLine(fields[n])
  }

  lemma LastField(fields: seq<Field>)
    ensures fields == [] ==> FieldLines(fields) == [] && FieldsText(fields) == []
    ensures fields != [] ==>
              var n := |fields| - 1;
              if fields[n].value == []
              then FieldLines(fields) == FieldLines(fields[..n]) && FieldsText(fields) == FieldsText(fields[..n])
              else FieldLines(fields) == FieldLines(fields[..n]) + [FieldLine(fields[n])]
                   && FieldsText(fields) == FieldsText(fields[..n]) + ([LF] + FieldLine(fields[n]))
  {
    hide FieldLine;
  }

  lemma {:induction false} JoinFields(first: Str, fields: seq<Field>)
    ensures Join([first] + FieldLines(fields)) == first + FieldsText(fields)
  {
    hide FieldLine, FieldLines, FieldsText, Join;
    LastField(fields);
    if fields == [] {
      assert [first] + FieldLines(fields) == [first];
      JoinOne(first);
    } else {
      var n := |fields| - 1;
      var before, line := [first] + FieldLines(fields[..n]), FieldLine(fields[n]);
      JoinFields(first, fields[..n]);
      if fields[n].value != [] {
        JoinConcat(before, [line]);
        JoinOne(line);
        assert [first] + FieldLines(fields) == before + [line];
        assert Join(before) + [LF] + line == first + (FieldsText(fields[..n]) + ([LF] + line));
      }
    }
  }

  /** Title, fields, an empty line, the heading and the quoted lines of the body. */
  lemma CompleteReads(a: Alert)
    ensures Complete(a) == Text("### 🚨 ") + Escape(a.title) + FieldsText(a.fields) + [10, 10] + Text("**日志内容**")
                           + [10] + Join(BodyLines(Split(a.body)))
  {
    hide Text, Escape, FieldLines, FieldsText, BodyLines, Split;
    var first := Text(TITLE) + Escape(a.title);
    var heading := Text(HEADING);
    JoinFields(first, a.fields);
    var none: Str := [];
    JoinConcat([first] + FieldLines(a.fields), [none, heading]);
    assert [none, heading] == [none] + [heading];
    JoinPrepend(none, [heading]);
    JoinConcat(HeadLines(a), BodyLines(Split(a.body)));
    assert HeadLines(a) == ([first] + FieldLines(a.fields)) + [none, heading];
    assert Join(HeadLines(a)) == first + FieldsText(a.fields) + [10] + ([] + [10] + heading);
  }

  /** The lines of a field, highlighted or not, and of the body. */
  lemma LinesRead(f: Field, line: Str)
    ensures f.highlighted ==>
              FieldLine(f) == Text("> **") + f.name + Text("：** ") + Text("<font color=\"warning\">") + Escape(f.value)
                              + Text("</font>")
    ensures !f.highlighted ==> FieldLine(f) == Text("> **") + f.name + Text("：** ") + Escape(f.value)
    ensures BodyLine(line) == Text("> <font color=\"warning\">") + Escape(line) + Text("</font>")
  {
    hide Text, Escape;
    assert QUOTE + WARNING_OPEN == "> <font color=\"warning\">";
  }

  // ----- reading the body back

  /** A quoted line without its frame and its escapes. */
  function Unquote(line: Str): Str {
    var opening, closing := |Text(QUOTE + WARNING_OPEN)|, |Text(WARNING_CLOSE)|;
    if |line| < opening + closing then line else Unescape(line[opening..|line| - closing])
  }

  function UnquoteAll(lines: seq<Str>): (bodies: seq<Str>)
    ensures |bodies| == |lines|
  {
    seq(|lines|, i requires 0 <= i < |lines| => Unquote(lines[i]))
  }

  function DecodeBody(section: Str): Str {
    Join(UnquoteAll(Split(section)))
  }

  lemma UnquoteBodyLine(line: Str)
    ensures Unquote(BodyLine(line)) == line
  {
    hide Text, Escape, Unescape;
    var opening, closing := Text(QUOTE + WARNING_OPEN), Text(WARNING_CLOSE);
    var escaped := Escape(line);
    var quoted := opening + escaped + closing;
    assert quoted[|opening|..|quoted| - |closing|] == escaped;
    UnescapeEscape(line);
  }

  lemma TextHoldsNoLineFeed(s: string)
    requires '\n' !in s
    ensures LF !in Text(s)
  {
    EncodedHoldsNoLineFeed(seq(|s|, i requires 0 <= i < |s| => s[i] as int));
  }

  lemma BodyLineHoldsNoLineFeed(line: Str)
    requires LF !in line
    ensures LF !in BodyLine(line)
  {
    hide Escape;
    EscapeHoldsNoLineFeed(line);
    TextHoldsNoLineFeed(QUOTE + WARNING_OPEN);
    TextHoldsNoLineFeed(WARNING_CLOSE);
  }

  /** The quoted lines of the complete alert decode to the body, whatever bytes it has. */
  lemma BodySurvives(a: Alert)
    ensures var head := Join(HeadLines(a));
            |Complete(a)| > |head| && DecodeBody(Complete(a)[|head| + 1..]) == a.body
  {
    hide Text, BodyLine, Unquote, HeadLines, Join, Split;
    var lines := Split(a.body);
    var quoted := BodyLines(lines);
    assert |HeadLines(a)| >= 1 by {
      HeadInAll(a);
    }
    JoinConcat(HeadLines(a), quoted);
    assert Complete(a)[|Join(HeadLines(a))| + 1..] == Join(quoted);
    PiecesHoldNoLineFeed(a.body);
    forall i | 0 <= i < |quoted|
      ensures LF !in quoted[i] && Unquote(quoted[i]) == lines[i]
    {
      BodyLineHoldsNoLineFeed(lines[i]);
      UnquoteBodyLine(lines[i]);
    }
    SplitJoin(quoted);
    assert UnquoteAll(quoted) == lines;
    JoinSplit(a.body);
  }
}
