/** The container runtime's line format: timestamp, stream, flag and message, separated by single spaces. */
module Cri {
  import opened Wrappers
  import opened Lines

  const SPACE: byte := 32
  const STDOUT: Str := [115, 116, 100, 111, 117, 116]
  const STDERR: Str := [115, 116, 100, 101, 114, 114]
  const PARTIAL: Str := [80]
  const FULL: Str := [70]

  datatype Message = Message(body: Str, timestamp: int, stream: Str, flag: Str)

  /** The parts before and after the first space. */
  function Cut(s: Str): Option<(Str, Str)> {
    if s == [] then None
    else if s[0] == SPACE then Some(([], s[1..]))
    else
      match Cut(s[1..])
      case None => None
      case Some(parts) => Some(([s[0]] + parts.0, parts.1))
  }

  predicate IsStream(s: Str) {
    s == STDOUT || s == STDERR
  }

  predicate IsFlag(s: Str) {
    s == PARTIAL || s == FULL
  }

  /** Cuts at the first three spaces; a timestamp that does not parse rejects the line. */
  function ParseCri(parseTime: Str -> Option<int>, line: Str): Option<Message> {
    var cut1 := Cut(line);
    if cut1.None? then None else
      var cut2 := Cut(cut1.value.1);
      if cut2.None? then None else
        var cut3 := Cut(cut2.value.1);
        if cut3.None? then None else
          var (stream, flag, body) := (cut2.value.0, cut3.value.0, cut3.value.1);
          if !IsStream(stream) || !IsFlag(flag) then None else
            match parseTime(cut1.value.0)
            case None => None
            case Some(t) => Some(Message(body, t, stream, flag))
  }

  function Spaced(a: Str, b: Str): Str {
    a + [SPACE] + b
  }

  function Format(time: Str, stream: Str, flag: Str, body: Str): Str {
    Spaced(time, Spaced(stream, Spaced(flag, body)))
  }

  lemma {:induction false} CutSpaced(a: Str, b: Str)
    requires SPACE !in a
    ensures Cut(Spaced(a, b)) == Some((a, b))
  {
    var s := Spaced(a, b);
    if a == [] {
      assert s[1..] == b;
    } else {
      assert s[1..] == Spaced(a[1..], b);
      CutSpaced(a[1..], b);
      assert [a[0]] + a[1..] == a;
    }
  }

  lemma {:induction false} SpacedCut(s: Str)
    requires Cut(s).Some?
    ensures var (a, b) := Cut(s).value; s == Spaced(a, b) && SPACE !in a
  {
    if s[0] == SPACE {
      assert s == Spaced([], s[1..]);
    } else {
      SpacedCut(s[1..]);
      var (a, b) := Cut(s[1..]).value;
      assert s == [s[0]] + s[1..] == Spaced([s[0]] + a, b);
    }
  }

  /** The streams and flags there are. */
  lemma StreamsAndFlags(s: Str)
    ensures IsStream(s) <==> Spells(s, "stdout") || Spells(s, "stderr")
    ensures IsFlag(s) <==> Spells(s, "P") || Spells(s, "F")
  {
    assert Spells(STDOUT, "stdout") && Spells(STDERR, "stderr") && Spells(PARTIAL, "P") && Spells(FULL, "F");
    assert IsStream(s) || IsFlag(s) ==>
      Spells(s, "stdout") || Spells(s, "stderr") || Spells(s, "P") || Spells(s, "F");
    if Spells(s, "stdout") {
      assert s == STDOUT;
    } else if Spells(s, "stderr") {
      assert s == STDERR;
    } else if Spells(s, "P") {
      assert s == PARTIAL;
    } else if Spells(s, "F") {
      assert s == FULL;
    }
  }

  /** Parsing a formatted line gives its parts back. */
  lemma ParseFormat(parseTime: Str -> Option<int>, time: Str, stream: Str, flag: Str, body: Str)
    requires SPACE !in time && IsStream(stream) && IsFlag(flag)
    ensures ParseCri(parseTime, Format(time, stream, flag, body))
            == match parseTime(time)
               case None => None
               case Some(t) => Some(Message(body, t, stream, flag))
  {
    CutSpaced(time, Spaced(stream, Spaced(flag, body)));
    CutSpaced(stream, Spaced(flag, body));
    CutSpaced(flag, body);
  }

  /** Only a formatted line parses. */
  lemma ParsedIsFormatted(parseTime: Str -> Option<int>, line: Str) returns (time: Str)
    requires ParseCri(parseTime, line).Some?
    ensures var m := ParseCri(parseTime, line).value;
            && line == Format(time, m.stream, m.flag, m.body)
            && SPACE !in time && IsStream(m.stream) && IsFlag(m.flag) && parseTime(time) == Some(m.timestamp)
  {
    SpacedCut(line);
    SpacedCut(Cut(line).value.1);
    SpacedCut(Cut(Cut(line).value.1).value.1);
    time := Cut(line).value.0;
  }
}
