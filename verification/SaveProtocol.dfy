/**
 Saves interleaved with changes, failed writes, crashes and restarts. There is one saver at a time, as
 the collector is wired; sets and cleanups may happen at any moment of a save.
 */
module SaveProtocol {
  import opened Wrappers
  import opened Lines
  import opened PositionStore

  datatype Saver = Idle | Writing(snapshot: Snapshot) | Renamed(snapshot: Snapshot)

  datatype System = System(memory: Memory, disk: Positions, saver: Saver)

  datatype Action =
    | Set(key: Identity, position: Position)
    | Cleanup(olderThan: nat, identityAt: Str -> Option<Identity>)
    | Begin(force: bool)
    | WriteFails
    | Rename
    | Finish
    | Restart

  /** There is one saver at a time; everything else may happen at any moment. */
  predicate Enabled(s: System, a: Action) {
    match a
    case Begin(force) => s.saver.Idle? && (force || s.memory.dirty)
    case WriteFails => s.saver.Writing?
    case Rename => s.saver.Writing?
    case Finish => s.saver.Renamed?
    case _ => true
  }

  function Apply(s: System, a: Action): System
    requires Enabled(s, a)
  {
    match a
    case Set(key, p) => s.(memory := WithPosition(s.memory, key, p))
    case Cleanup(olderThan, identityAt) => s.(memory := CleanedUp(s.memory, olderThan, identityAt))
    case Begin(force) => s.(saver := Writing(SnapshotOf(s.memory)))
    case WriteFails => s.(saver := Idle)
    case Rename => s.(disk := s.saver.snapshot.positions, saver := Renamed(s.saver.snapshot))
    case Finish => s.(memory := Finished(s.memory, s.saver.snapshot), saver := Idle)
    case Restart => System(Loaded(s.disk), s.disk, Idle)
  }

  ghost predicate Run(s: System, actions: seq<Action>, s': System)
    decreases |actions|
  {
    if actions == [] then s' == s
    else Enabled(s, actions[0]) && Run(Apply(s, actions[0]), actions[1..], s')
  }

  ghost predicate Consistent(s: System) {
    && (!s.memory.dirty ==> s.disk == s.memory.positions)
    && (!s.saver.Idle? ==>
          var snapshot := s.saver.snapshot;
          && snapshot.generation <= s.memory.generation
          && (snapshot.generation == s.memory.generation ==> snapshot.positions == s.memory.positions)
          && (snapshot.generation < s.memory.generation ==> s.memory.dirty))
    && (s.saver.Renamed? ==> s.disk == s.saver.snapshot.positions)
  }

  lemma NothingStale(m: Memory, olderThan: nat, identityAt: Str -> Option<Identity>)
    ensures CleanedUp(m, olderThan, identityAt) == m
            || (CleanedUp(m, olderThan, identityAt).generation > m.generation
                && CleanedUp(m, olderThan, identityAt).dirty)
  {
    var stale := StaleKeys(m.positions, olderThan, identityAt);
    if stale == {} {
      assert m.positions - stale == m.positions;
    } else {
      var key :| key in stale;
      assert |stale - {key}| + 1 == |stale|;
    }
  }

  lemma ApplyIsConsistent(s: System, a: Action)
    requires Consistent(s) && Enabled(s, a)
    ensures Consistent(Apply(s, a))
  {
    if a.Cleanup? {
      NothingStale(s.memory, a.olderThan, a.identityAt);
    }
  }

  /**
   Whatever sets, cleanups, failed writes and restarts happen around serial saves: when nothing is dirty
   the file holds the positions in memory.
   */
  lemma {:induction false} CleanMeansSaved(s: System, actions: seq<Action>, s': System)
    requires Consistent(s) && Run(s, actions, s')
    ensures Consistent(s')
    ensures !s'.memory.dirty ==> s'.disk == s'.memory.positions
    decreases |actions|
  {
    if actions != [] {
      ApplyIsConsistent(s, actions[0]);
      CleanMeansSaved(Apply(s, actions[0]), actions[1..], s');
    }
  }

  /** Only the end of a successful save clears the flag, and only if nothing changed since its snapshot. */
  lemma DirtyClearedOnlyBySave(s: System, a: Action)
    requires Consistent(s) && Enabled(s, a) && !a.Restart?
    requires s.memory.dirty && !Apply(s, a).memory.dirty
    ensures a.Finish? && s.saver.snapshot.generation == s.memory.generation
    ensures s.disk == s.memory.positions
  {
    if a.Cleanup? {
      NothingStale(s.memory, a.olderThan, a.identityAt);
    }
  }

  /** A position that was set, saved without a change in between and loaded again is still there. */
  lemma SavedPositionSurvives(s: System, key: Identity, p: Position)
    requires Consistent(s) && s.saver.Idle?
    ensures var changed := Apply(s, Set(key, p));
            var renamed := Apply(Apply(changed, Begin(true)), Rename);
            var saved := Apply(renamed, Finish);
            var restarted := Apply(saved, Restart);
            && !saved.memory.dirty && saved.disk == saved.memory.positions == changed.memory.positions
            && restarted.memory.positions == saved.memory.positions
            && key in restarted.memory.positions
            && restarted.memory.positions[key].offset == p.offset && restarted.memory.positions[key].path == p.path
  {
  }

  /** A cleanup takes effect at once, whatever a save is doing. */
  lemma CleanupRemovesStale(s: System, olderThan: nat, identityAt: Str -> Option<Identity>, key: Identity)
    ensures key in Apply(s, Cleanup(olderThan, identityAt)).memory.positions
            <==> key in s.memory.positions
                 && (s.memory.positions[key].updatedAt >= olderThan
                     || identityAt(s.memory.positions[key].path) == Some(key))
    ensures Apply(s, Cleanup(olderThan, identityAt)).saver == s.saver
  {
  }

  /** A write that fails leaves the file, the table and the dirty flag as they were. */
  lemma FailedWriteChangesNothing(s: System)
    requires s.saver.Idle? && s.memory.dirty
    ensures Apply(Apply(s, Begin(false)), WriteFails) == s
  {
  }

  /**
   Two overlapping savers break the protocol: the first one renames its older snapshot over the file of
   the second after the second has cleared the flag.
   */
  lemma OverlappingSavesLoseAnUpdate(key: Identity, p: Position)
    ensures var before := Loaded(map[]);
            var first := SnapshotOf(before);
            var changed := WithPosition(before, key, p);
            var second := SnapshotOf(changed);
            var diskAfterSecond, afterSecond := second.positions, Finished(changed, second);
            var diskAfterFirst, afterFirst := first.positions, Finished(afterSecond, first);
            && diskAfterSecond == afterSecond.positions && !afterSecond.dirty
            && diskAfterFirst != afterFirst.positions && !afterFirst.dirty
  {
    var changed := WithPosition(Loaded(map[]), key, p);
    assert key in changed.positions;
  }
}
