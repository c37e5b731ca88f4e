/**
 Crash recovery in single-line mode. Files grow, several of them are read at once, positions are set at
 the end of a round, cleaned up and saved, and the process may crash at any moment and restart from what
 was saved. `base` is the offset from which no line of a file may be missed: 0 when reading starts at the
 beginning, the first saved offset when it starts at the end.
 */
module Recovery {
  import opened Wrappers
  import opened Lines
  import opened Polling
  import opened PositionStore
  import SaveProtocol

  datatype World = World(
    files: map<Identity, Str>,
    system: SaveProtocol.System,
    readers: map<Identity, Reading>,
    frontier: map<Identity, nat>,
    handled: map<Identity, set<(nat, nat)>>)

  /** A round in progress: the stored offset it found, and the offset behind the lines it handled. */
  datatype Reading = Reading(initial: nat, offset: nat)

  datatype Setup = Setup(startAtEnd: Identity -> bool, base: Identity -> nat)

  datatype Action =
    | Grow(key: Identity, bytes: Str)
    | Open(key: Identity)
    | Line(key: Identity, emitOk: bool)
    | Close(key: Identity, path: Str, now: nat)
    | Cleanup(olderThan: nat, identityAt: Str -> Option<Identity>)
    | Save(step: SaveProtocol.Action)
    | Crash

  function ContentOf(w: World, key: Identity): Str {
    if key in w.files then w.files[key] else []
  }

  function FrontierOf(w: World, key: Identity): nat {
    if key in w.frontier then w.frontier[key] else 0
  }

  function HandledOf(w: World, key: Identity): set<(nat, nat)> {
    if key in w.handled then w.handled[key] else {}
  }

  function OffsetIn(positions: Positions, key: Identity): Option<nat> {
    if key in positions then Some(positions[key].offset) else None
  }

  predicate NextLine(w: World, key: Identity) {
    && key in w.readers
    && w.readers[key].offset <= |ContentOf(w, key)|
    && HasLine(ContentOf(w, key)[w.readers[key].offset..])
  }

  /** Saves are serial; everything else may happen at any moment. */
  ghost predicate Enabled(c: Setup, w: World, a: Action) {
    match a
    case Grow(key, _) => true
    case Open(key) => key !in w.readers
    case Line(key, _) => NextLine(w, key)
    case Close(key, _, _) => key in w.readers
    case Cleanup(_, _) => true
    case Save(step) => (step.Begin? || step.WriteFails? || step.Rename? || step.Finish?)
                       && SaveProtocol.Enabled(w.system, step)
    case Crash => true
  }

  function Behind(w: World, key: Identity): nat
    requires NextLine(w, key)
  {
    var o := w.readers[key].offset;
    o + LineLength(ContentOf(w, key)[o..]) + 1
  }

  /** Hands over (or drops by level) the next line; a refused line leaves the round where it is. */
  function HandleLine(w: World, key: Identity, emitOk: bool): World
    requires NextLine(w, key)
  {
    if !emitOk then w
    else
      var o, next := w.readers[key].offset, Behind(w, key);
      w.(readers := w.readers[key := w.readers[key].(offset := next)],
         handled := w.handled[key := HandledOf(w, key) + {(o, next)}],
         frontier := w.frontier[key := if next > FrontierOf(w, key) then next else FrontierOf(w, key)])
  }

  /** The offset is stored once, at the end of the round, and only if it differs from the one found. */
  function FinishRound(w: World, key: Identity, path: Str, now: nat): World
    requires key in w.readers
  {
    var r := w.readers[key];
    var memory := if r.offset == r.initial then w.system.memory
                  else WithPosition(w.system.memory, key, Position(path, r.offset, now));
    w.(system := w.system.(memory := memory), readers := w.readers - {key})
  }

  function Apply(c: Setup, w: World, a: Action): World
    requires Enabled(c, w, a)
  {
    match a
    case Grow(key, bytes) => w.(files := w.files[key := ContentOf(w, key) + bytes])
    case Open(key) =>
      var stored := OffsetIn(w.system.memory.positions, key);
      var start := StartOffset(c.startAtEnd(key), stored, |ContentOf(w, key)|);
      w.(readers := w.readers[key := Reading(stored.GetOr(0), start)])
    case Line(key, ok) => HandleLine(w, key, ok)
    case Close(key, path, now) => FinishRound(w, key, path, now)
    case Cleanup(olderThan, identityAt) =>
      w.(system := w.system.(memory := CleanedUp(w.system.memory, olderThan, identityAt)))
    case Save(step) => w.(system := SaveProtocol.Apply(w.system, step))
    case Crash => w.(system := SaveProtocol.Apply(w.system, SaveProtocol.Restart), readers := map[])
  }

  /**
   A cleanup spares a file that is read from its end: its entry is recent, or the file is still found at
   the recorded path. Files read from their beginning need no sparing.
   */
  predicate Spares(c: Setup, w: World, a: Action, key: Identity) {
    a.Cleanup? && c.startAtEnd(key) && key in w.system.memory.positions ==>
      !Stale(key, w.system.memory.positions[key], a.olderThan, a.identityAt)
  }

  /** A run in which every cleanup spares one file. */
  ghost predicate Run(c: Setup, w: World, actions: seq<Action>, w': World, key: Identity)
    decreases |actions|
  {
    if actions == [] then w' == w
    else
      && Enabled(c, w, actions[0])
      && Spares(c, w, actions[0], key)
      && Run(c, Apply(c, w, actions[0]), actions[1..], w', key)
  }

  // ----- lines as intervals of offsets

  /** Does a line start at `o`, seen from `base`? */
  ghost predicate Boundary(f: Str, base: nat, o: nat) {
    base <= o <= |f| && (o == base || f[o - 1] == LF)
  }

  /** `x` is where a complete line starts and `y` is just behind its line feed. */
  ghost predicate IsLine(f: Str, base: nat, x: nat, y: nat) {
    && x < y <= |f|
    && Boundary(f, base, x)
    && f[y - 1] == LF
    && (forall i | x <= i < y - 1 :: f[i] != LF)
  }

  /** The lines handled are exactly those that end at or before the frontier. */
  ghost predicate Covered(f: Str, base: nat, frontier: nat, handled: set<(nat, nat)>) {
    forall x: nat, y: nat :: (x, y) in handled <==> IsLine(f, base, x, y) && y <= frontier
  }

  ghost predicate Reached(f: Str, base: nat, frontier: nat, o: nat) {
    Boundary(f, base, o) && o <= frontier
  }

  /** A set of positions from which reading this file may start again. */
  ghost predicate Restartable(c: Setup, key: Identity, f: Str, frontier: nat, positions: Positions) {
    match OffsetIn(positions, key)
    case Some(o) => Reached(f, c.base(key), frontier, o)
    case None => !c.startAtEnd(key) && c.base(key) == 0
  }

  ghost predicate Safe(c: Setup, w: World, key: Identity) {
    var f, base, frontier := ContentOf(w, key), c.base(key), FrontierOf(w, key);
    && Boundary(f, base, frontier)
    && Covered(f, base, frontier, HandledOf(w, key))
    && Restartable(c, key, f, frontier, w.system.memory.positions)
    && Restartable(c, key, f, frontier, w.system.disk)
    && (!w.system.saver.Idle? ==> Restartable(c, key, f, frontier, w.system.saver.snapshot.positions))
    && (key in w.readers ==> Reached(f, base, frontier, w.readers[key].offset))
  }

  lemma GrowKeeps(f: Str, bytes: Str, base: nat, frontier: nat, handled: set<(nat, nat)>)
    requires Boundary(f, base, frontier) && Covered(f, base, frontier, handled)
    ensures Covered(f + bytes, base, frontier, handled)
    ensures forall o: nat :: Reached(f, base, frontier, o) ==> Reached(f + bytes, base, frontier, o)
  {
    forall x: nat, y: nat
      ensures IsLine(f, base, x, y) && y <= frontier <==> IsLine(f + bytes, base, x, y) && y <= frontier
    {
      if y <= |f| {
        assert forall i | 0 <= i < |f| :: (f + bytes)[i] == f[i];
      }
    }
  }

  lemma FirstLineIs(f: Str, o: nat) returns (next: nat)
    requires o <= |f| && HasLine(f[o..])
    ensures next == o + LineLength(f[o..]) + 1 && next <= |f| && f[next - 1] == LF
    ensures forall i | o <= i < next - 1 :: f[i] != LF
  {
    var n := LineLength(f[o..]);
    next := o + n + 1;
    LineHoldsNoLineFeed(f[o..]);
    forall i | o <= i < next - 1
      ensures f[i] != LF
    {
      assert f[i] == f[o..][..n][i - o];
    }
  }

  lemma OnlyLineBehind(f: Str, base: nat, o: nat, next: nat, x: nat, y: nat)
    requires Boundary(f, base, o) && IsLine(f, base, o, next) && IsLine(f, base, x, y) && o < y <= next
    ensures x == o && y == next
  {
    assert y == next;
    assert o > base ==> f[o - 1] == LF;
    assert x > base ==> f[x - 1] == LF;
  }

  /** Reading the next line from a reached offset moves the frontier by that line or not at all. */
  lemma LineKeeps(f: Str, base: nat, frontier: nat, handled: set<(nat, nat)>, o: nat)
    requires Boundary(f, base, frontier) && Covered(f, base, frontier, handled) && Reached(f, base, frontier, o)
    requires HasLine(f[o..])
    ensures var next := o + LineLength(f[o..]) + 1;
            var frontier' := if next > frontier then next else frontier;
            && Boundary(f, base, frontier') && Reached(f, base, frontier', next)
            && Covered(f, base, frontier', handled + {(o, next)})
  {
    var next := FirstLineIs(f, o);
    assert IsLine(f, base, o, next);
    if o < frontier {
      assert next <= frontier;
      assert handled + {(o, next)} == handled;
    } else {
      forall x: nat, y: nat
        ensures IsLine(f, base, x, y) && y <= next <==> (IsLine(f, base, x, y) && y <= frontier) || (x, y) == (o, next)
      {
        if IsLine(f, base, x, y) && frontier < y <= next {
          OnlyLineBehind(f, base, o, next, x, y);
        }
      }
    }
  }

  lemma ReachedLater(f: Str, base: nat, frontier: nat, frontier': nat)
    requires frontier <= frontier'
    ensures forall o: nat :: Reached(f, base, frontier, o) ==> Reached(f, base, frontier', o)
  {
  }

  lemma CleanupKeepsStart(c: Setup, w: World, olderThan: nat, identityAt: Str -> Option<Identity>, key: Identity)
    requires Safe(c, w, key) && Spares(c, w, Cleanup(olderThan, identityAt), key)
    requires c.startAtEnd(key) || c.base(key) == 0
    ensures Restartable(c, key, ContentOf(w, key), FrontierOf(w, key),
                        CleanedUp(w.system.memory, olderThan, identityAt).positions)
  {
    if key in w.system.memory.positions {
      CleanupKeeps(w.system.memory, olderThan, identityAt, key);
    }
  }

  lemma OpenStartsReached(c: Setup, key: Identity, f: Str, frontier: nat, positions: Positions)
    requires Restartable(c, key, f, frontier, positions) && Boundary(f, c.base(key), frontier)
    ensures Reached(f, c.base(key), frontier, StartOffset(c.startAtEnd(key), OffsetIn(positions, key), |f|))
  {
  }

  lemma SetKeepsStart(c: Setup, key: Identity, f: Str, frontier: nat, m: Memory, k: Identity, p: Position)
    requires Restartable(c, key, f, frontier, m.positions)
    requires k == key ==> Reached(f, c.base(key), frontier, p.offset)
    ensures Restartable(c, key, f, frontier, WithPosition(m, k, p).positions)
  {
  }

  /** Safety survives when more of the file is there or more of it was handled. */
  lemma SafeLater(c: Setup, w: World, w': World, key: Identity)
    requires Safe(c, w, key) && w'.system == w.system
    requires var f, f', base := ContentOf(w, key), ContentOf(w', key), c.base(key);
             && Boundary(f', base, FrontierOf(w', key))
             && Covered(f', base, FrontierOf(w', key), HandledOf(w', key))
             && (forall o: nat :: Reached(f, base, FrontierOf(w, key), o) ==> Reached(f', base, FrontierOf(w', key), o))
             && (key in w'.readers ==> Reached(f', base, FrontierOf(w', key), w'.readers[key].offset))
    ensures Safe(c, w', key)
  {
    hide Boundary, Covered, Reached;
  }

  lemma LineKeepsSafe(c: Setup, w: World, key: Identity)
    requires Safe(c, w, key) && NextLine(w, key)
    ensures Safe(c, HandleLine(w, key, true), key)
  {
    hide Covered, IsLine;
    var f, base, frontier := ContentOf(w, key), c.base(key), FrontierOf(w, key);
    var w' := HandleLine(w, key, true);
    LineKeeps(f, base, frontier, HandledOf(w, key), w.readers[key].offset);
    ReachedLater(f, base, frontier, FrontierOf(w', key));
    SafeLater(c, w, w', key);
  }

  lemma GrowKeepsBoundary(f: Str, bytes: Str, base: nat, o: nat)
    requires Boundary(f, base, o)
    ensures Boundary(f + bytes, base, o)
  {
  }

  lemma GrowKeepsSafe(c: Setup, w: World, k: Identity, bytes: Str, key: Identity)
    requires Safe(c, w, key)
    ensures Safe(c, Apply(c, w, Grow(k, bytes)), key)
  {
    hide Boundary, Covered, Reached, Restartable;
    var f, base, frontier := ContentOf(w, key), c.base(key), FrontierOf(w, key);
    if k == key {
      GrowKeeps(f, bytes, base, frontier, HandledOf(w, key));
      GrowKeepsBoundary(f, bytes, base, frontier);
      SafeLater(c, w, Apply(c, w, Grow(k, bytes)), key);
    }
  }

  lemma CloseKeepsSafe(c: Setup, w: World, k: Identity, path: Str, now: nat, key: Identity)
    requires Safe(c, w, key) && k in w.readers
    ensures Safe(c, FinishRound(w, k, path, now), key)
  {
    hide Boundary, Covered, Reached, Restartable, WithPosition;
    var f, frontier := ContentOf(w, key), FrontierOf(w, key);
    SetKeepsStart(c, key, f, frontier, w.system.memory, k, Position(path, w.readers[k].offset, now));
  }

  /** Every step keeps every file safe. */
  lemma ApplyKeepsSafe(c: Setup, w: World, a: Action, key: Identity)
    requires Safe(c, w, key) && Enabled(c, w, a) && Spares(c, w, a, key)
    requires c.startAtEnd(key) || c.base(key) == 0
    ensures Safe(c, Apply(c, w, a), key)
  {
    hide Boundary, Covered, Reached, Restartable, StartOffset, WithPosition, CleanedUp, LineLength, FinishRound;
    match a
    case Grow(k, bytes) => GrowKeepsSafe(c, w, k, bytes, key);
    case Open(k) => OpenStartsReached(c, key, ContentOf(w, key), FrontierOf(w, key), w.system.memory.positions);
    case Line(k, ok) =>
      if k == key && ok {
        LineKeepsSafe(c, w, key);
      }
    case Close(k, path, now) => CloseKeepsSafe(c, w, k, path, now, key);
    case Cleanup(olderThan, identityAt) => CleanupKeepsStart(c, w, olderThan, identityAt, key);
    case Save(step) =>
    case Crash =>
  }

  lemma {:induction false} RunKeepsSafe(c: Setup, w: World, actions: seq<Action>, w': World, key: Identity)
    requires Run(c, w, actions, w', key) && Safe(c, w, key)
    requires c.startAtEnd(key) || c.base(key) == 0
    ensures Safe(c, w', key)
    decreases |actions|
  {
    if actions != [] {
      ApplyKeepsSafe(c, w, actions[0], key);
      RunKeepsSafe(c, Apply(c, w, actions[0]), actions[1..], w', key);
    }
  }

  /** Where reading a file starts with these positions. */
  function NextStart(c: Setup, w: World, positions: Positions, key: Identity): nat {
    StartOffset(c.startAtEnd(key), OffsetIn(positions, key), |ContentOf(w, key)|)
  }

  /** Reading would start at a line, and every complete line before that was handed to `emit` or dropped by level. */
  ghost predicate NoGap(f: Str, base: nat, start: nat, handled: set<(nat, nat)>) {
    Boundary(f, base, start) && forall x: nat, y: nat | IsLine(f, base, x, y) && y <= start :: (x, y) in handled
  }

  ghost predicate LeavesNoGap(c: Setup, w: World, positions: Positions, key: Identity) {
    NoGap(ContentOf(w, key), c.base(key), NextStart(c, w, positions, key), HandledOf(w, key))
  }

  /**
   The process has just started. Without a saved position nothing was handled, and reading starts at the
   beginning; with one, the lines before it and no others were handled. `base` is 0 for a file read from
   its beginning, and any line start at or before the saved position for one read from its end.
   */
  ghost predicate Initial(c: Setup, w: World, key: Identity) {
    && Boundary(ContentOf(w, key), c.base(key), FrontierOf(w, key))
    && Covered(ContentOf(w, key), c.base(key), FrontierOf(w, key), HandledOf(w, key))
    && w.system.saver.Idle? && w.readers == map[]
    && OffsetIn(w.system.memory.positions, key) == OffsetIn(w.system.disk, key)
    && (!c.startAtEnd(key) ==> c.base(key) == 0)
    && match OffsetIn(w.system.disk, key)
       case Some(o) => FrontierOf(w, key) == o
       case None => !c.startAtEnd(key) && FrontierOf(w, key) == 0
  }

  /**
   In every reachable state a restart would start at a line that was reached, and every complete line
   before it was handed to `emit` or dropped by level: lines may repeat but none is skipped.
   */
  lemma RestartLeavesNoGap(c: Setup, w: World, actions: seq<Action>, w': World, key: Identity)
    requires Initial(c, w, key) && Run(c, w, actions, w', key)
    ensures LeavesNoGap(c, w', w'.system.disk, key)
    ensures forall x: nat, y: nat | (x, y) in HandledOf(w', key) :: IsLine(ContentOf(w', key), c.base(key), x, y)
  {
    RunKeepsSafe(c, w, actions, w', key);
  }

  /** The same holds of the position in memory, where the next round of a running collector starts. */
  lemma NextRoundLeavesNoGap(c: Setup, w: World, actions: seq<Action>, w': World, key: Identity)
    requires Initial(c, w, key) && Run(c, w, actions, w', key)
    ensures LeavesNoGap(c, w', w'.system.memory.positions, key)
  {
    RunKeepsSafe(c, w, actions, w', key);
  }

  // ----- a whole round

  /** The loop of a round, as long as there is a line and `emit` takes it. */
  lemma {:induction false} ReadToEnd(c: Setup, w: World, key: Identity) returns (actions: seq<Action>, w': World)
    requires Safe(c, w, key) && key in w.readers && (c.startAtEnd(key) || c.base(key) == 0)
    ensures Run(c, w, actions, w', key) && Safe(c, w', key)
    ensures w'.system == w.system && w'.files == w.files
    ensures key in w'.readers && w'.readers[key].initial == w.readers[key].initial && !NextLine(w', key)
    decreases |ContentOf(w, key)| - w.readers[key].offset
  {
    hide Covered, IsLine, Restartable;
    if !NextLine(w, key) {
      return [], w;
    }
    LineKeepsSafe(c, w, key);
    var rest;
    rest, w' := ReadToEnd(c, HandleLine(w, key, true), key);
    actions := [Line(key, true)] + rest;
    assert actions[1..] == rest;
  }

  /** Behind an offset without a next line there is no line end. */
  lemma NothingBehind(f: Str, base: nat, frontier: nat, handled: set<(nat, nat)>, o: nat)
    requires Covered(f, base, frontier, handled) && Reached(f, base, frontier, o) && !HasLine(f[o..])
    ensures forall i | o <= i < |f| :: f[i] != LF
    ensures forall x: nat, y: nat | IsLine(f, base, x, y) :: (x, y) in handled
  {
    NoLineFeed(f[o..]);
    forall i | o <= i < |f|
      ensures f[i] != LF
    {
      assert f[i] == f[o..][i - o];
    }
  }

  lemma {:induction false} RunThen(c: Setup, w: World, actions: seq<Action>, v: World, a: Action, key: Identity)
    requires Run(c, w, actions, v, key) && Enabled(c, v, a) && Spares(c, v, a, key)
    ensures Run(c, w, actions + [a], Apply(c, v, a), key)
    decreases |actions|
  {
    hide Apply, Enabled, Spares;
    if actions == [] {
      assert [a][1..] == [];
    } else {
      assert (actions + [a])[1..] == actions[1..] + [a];
      RunThen(c, Apply(c, w, actions[0]), actions[1..], v, a, key);
    }
  }

  lemma RunFirst(c: Setup, w: World, a: Action, rest: seq<Action>, w': World, key: Identity)
    requires Enabled(c, w, a) && Spares(c, w, a, key) && Run(c, Apply(c, w, a), rest, w', key)
    ensures Run(c, w, [a] + rest, w', key)
  {
    hide Apply, Enabled, Spares;
    assert ([a] + rest)[1..] == rest;
  }

  lemma ClosedOffset(w: World, key: Identity, path: Str, now: nat)
    requires key in w.readers && w.readers[key].initial == OffsetIn(w.system.memory.positions, key).GetOr(0)
    ensures OffsetIn(FinishRound(w, key, path, now).system.memory.positions, key).GetOr(0) == w.readers[key].offset
  {
  }

  /**
   A round in which `emit` takes every line handles every complete line of the file, and the offset it stores,
   or finds stored already, has no line end behind it.
   */
  lemma RoundHandlesEveryLine(c: Setup, w: World, key: Identity, path: Str, now: nat)
    returns (actions: seq<Action>, w': World)
    requires Safe(c, w, key) && key !in w.readers && (c.startAtEnd(key) || c.base(key) == 0)
    ensures Run(c, w, actions, w', key) && ContentOf(w', key) == ContentOf(w, key)
    ensures forall x: nat, y: nat | IsLine(ContentOf(w, key), c.base(key), x, y) :: (x, y) in HandledOf(w', key)
    ensures var o := OffsetIn(w'.system.memory.positions, key).GetOr(0);
            o <= |ContentOf(w, key)| && forall i | o <= i < |ContentOf(w, key)| :: ContentOf(w, key)[i] != LF
  {
    hide Covered, IsLine, Restartable, StartOffset, Run;
    var begun := Apply(c, w, Open(key));
    ApplyKeepsSafe(c, w, Open(key), key);
    var lines, read := ReadToEnd(c, begun, key);
    NothingBehind(ContentOf(read, key), c.base(key), FrontierOf(read, key), HandledOf(read, key),
                  read.readers[key].offset);
    RunThen(c, begun, lines, read, Close(key, path, now), key);
    w' := Apply(c, read, Close(key, path, now));
    actions := [Open(key)] + (lines + [Close(key, path, now)]);
    RunFirst(c, w, Open(key), lines + [Close(key, path, now)], w', key);
    ClosedOffset(read, key, path, now);
  }

  /** After a crash the process has what the file holds, and no round or save is in progress. */
  lemma CrashStartsFromFile(c: Setup, w: World)
    ensures var w' := Apply(c, w, Crash);
            && w'.system.memory.positions == w'.system.disk == w.system.disk && !w'.system.memory.dirty
            && w'.system.saver.Idle? && w'.readers == map[]
            && w'.files == w.files && w'.handled == w.handled
  {
  }

  // ----- sparing is necessary

  /** Where the last, unfinished line starts. */
  function LastStart(f: Str, base: nat): (o: nat)
    requires base <= |f|
    ensures Boundary(f, base, o) && forall i | o <= i < |f| :: f[i] != LF
  {
    if |f| == base || f[|f| - 1] == LF then |f| else LastStart(f[..|f| - 1], base)
  }

  /** A line feed written after the position was lost ends a line that nobody reads. */
  lemma LostPositionSkips(f: Str, base: nat, frontier: nat, handled: set<(nat, nat)>)
    requires Boundary(f, base, frontier) && Covered(f, base, frontier, handled)
    ensures !NoGap(f + [LF], base, |f| + 1, handled)
  {
    var o := LastStart(f, base);
    assert forall i | 0 <= i < |f| :: (f + [LF])[i] == f[i];
    assert IsLine(f + [LF], base, o, |f| + 1);
    assert (o, |f| + 1) !in handled;
  }

  lemma SafeLeavesNoGap(c: Setup, w: World, key: Identity)
    requires Safe(c, w, key)
    ensures LeavesNoGap(c, w, w.system.memory.positions, key)
  {
  }

  /**
   A cleanup of a file that is read from its end leaves no gap, whatever is appended next, exactly when it
   spares the file.
   */
  lemma CleanupIsSafeExactly(c: Setup, w: World, olderThan: nat, identityAt: Str -> Option<Identity>, key: Identity)
    requires Safe(c, w, key) && c.startAtEnd(key)
    ensures var w' := Apply(c, w, Cleanup(olderThan, identityAt));
            (forall bytes :: LeavesNoGap(c, Apply(c, w', Grow(key, bytes)), w'.system.memory.positions, key))
            <==> Spares(c, w, Cleanup(olderThan, identityAt), key)
  {
    hide Covered, IsLine;
    var a := Cleanup(olderThan, identityAt);
    var w' := Apply(c, w, a);
    if Spares(c, w, a, key) {
      ApplyKeepsSafe(c, w, a, key);
      forall bytes
        ensures LeavesNoGap(c, Apply(c, w', Grow(key, bytes)), w'.system.memory.positions, key)
      {
        ApplyKeepsSafe(c, w', Grow(key, bytes), key);
        SafeLeavesNoGap(c, Apply(c, w', Grow(key, bytes)), key);
      }
    } else {
      CleanupKeeps(w.system.memory, olderThan, identityAt, key);
      LostPositionSkips(ContentOf(w, key), c.base(key), FrontierOf(w, key), HandledOf(w, key));
      assert !LeavesNoGap(c, Apply(c, w', Grow(key, [LF])), w'.system.memory.positions, key);
    }
  }

  /** The table is saved, and the process crashes and restarts. */
  function SavedAndRestarted(c: Setup, w: World): World
    requires w.system.saver.Idle?
  {
    var writing := Apply(c, w, Save(SaveProtocol.Begin(true)));
    Apply(c, Apply(c, writing, Save(SaveProtocol.Rename)), Crash)
  }

  lemma SavedTableIsKept(c: Setup, w: World)
    requires w.system.saver.Idle?
    ensures var restarted := SavedAndRestarted(c, w);
            && restarted.system.disk == w.system.memory.positions
            && restarted.files == w.files && restarted.handled == w.handled
  {
  }

  lemma GrownLeavesSameGap(c: Setup, w: World, w': World, positions: Positions, key: Identity, bytes: Str)
    requires w'.files == w.files && w'.handled == w.handled
    ensures LeavesNoGap(c, Apply(c, w', Grow(key, bytes)), positions, key)
            <==> LeavesNoGap(c, Apply(c, w, Grow(key, bytes)), positions, key)
  {
    hide NoGap;
  }

  /** And so too when the table is saved and the process crashes and restarts before the file grows. */
  lemma SavedCleanupIsSafeExactly(c: Setup, w: World, olderThan: nat, identityAt: Str -> Option<Identity>,
                                  key: Identity)
    requires Safe(c, w, key) && c.startAtEnd(key) && w.system.saver.Idle?
    ensures var restarted := SavedAndRestarted(c, Apply(c, w, Cleanup(olderThan, identityAt)));
            (forall bytes :: LeavesNoGap(c, Apply(c, restarted, Grow(key, bytes)), restarted.system.disk, key))
            <==> Spares(c, w, Cleanup(olderThan, identityAt), key)
  {
    hide NoGap, Spares, Safe, CleanedUp, SavedAndRestarted, LeavesNoGap;
    CleanupIsSafeExactly(c, w, olderThan, identityAt, key);
    var cleaned := Apply(c, w, Cleanup(olderThan, identityAt));
    SavedTableIsKept(c, cleaned);
    var restarted := SavedAndRestarted(c, cleaned);
    forall bytes
      ensures LeavesNoGap(c, Apply(c, restarted, Grow(key, bytes)), restarted.system.disk, key)
              <==> LeavesNoGap(c, Apply(c, cleaned, Grow(key, bytes)), cleaned.system.memory.positions, key)
    {
      GrownLeavesSameGap(c, cleaned, restarted, cleaned.system.memory.positions, key, bytes);
    }
  }
}
