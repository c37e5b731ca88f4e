/**
 Read positions by file identity, the dirty flag and the generation counter, and the three parts of a
 save: a snapshot taken under the lock, a file written and renamed outside it, and the dirty flag cleared
 at the end only if nothing changed in between.
 */
module PositionStore {
  import opened Wrappers
  import opened Lines

  /** A file's identity; the collector writes it as `device:inode`. */
  datatype Identity = Identity(device: nat, inode: nat)

  datatype Position = Position(path: Str, offset: nat, updatedAt: nat)

  type Positions = map<Identity, Position>

  datatype Memory = Memory(positions: Positions, dirty: bool, generation: nat)

  datatype Snapshot = Snapshot(positions: Positions, generation: nat)

  /** What a restart finds: the saved positions, nothing to save. */
  function Loaded(disk: Positions): Memory {
    Memory(disk, false, 0)
  }

  function WithPosition(m: Memory, key: Identity, p: Position): Memory {
    if key in m.positions && m.positions[key].offset == p.offset && m.positions[key].path == p.path then m
    else Memory(m.positions[key := p], true, m.generation + 1)
  }

  /** Old, and not the file that is found at the recorded path now. */
  predicate Stale(key: Identity, p: Position, olderThan: nat, identityAt: Str -> Option<Identity>) {
    p.updatedAt < olderThan && identityAt(p.path) != Some(key)
  }

  function StaleKeys(positions: Positions, olderThan: nat, identityAt: Str -> Option<Identity>): set<Identity> {
    set key | key in positions && Stale(key, positions[key], olderThan, identityAt)
  }

  function CleanedUp(m: Memory, olderThan: nat, identityAt: Str -> Option<Identity>): Memory {
    var stale := StaleKeys(m.positions, olderThan, identityAt);
    Memory(m.positions - stale, m.dirty || stale != {}, m.generation + |stale|)
  }

  function SnapshotOf(m: Memory): Snapshot {
    Snapshot(m.positions, m.generation)
  }

  function Finished(m: Memory, s: Snapshot): Memory {
    if m.generation == s.generation then m.(dirty := false) else m
  }

  /** A cleanup in progress: `removed` are the stale entries met so far, `keys` the ones still to be looked at. */
  ghost predicate Cleaning(before: Memory, stale: set<Identity>, removed: set<Identity>, keys: set<Identity>,
                           now: Memory) {
    && keys <= before.positions.Keys
    && removed <= stale && removed !! keys && stale - removed <= keys
    && now == Memory(before.positions - removed, before.dirty || removed != {}, before.generation + |removed|)
  }

  lemma CleaningBegins(before: Memory, stale: set<Identity>)
    requires stale <= before.positions.Keys
    ensures Cleaning(before, stale, {}, before.positions.Keys, before)
  {
    assert before.positions - {} == before.positions;
  }

  lemma CleaningLooks(before: Memory, stale: set<Identity>, removed: set<Identity>, keys: set<Identity>, now: Memory,
                      key: Identity)
    requires Cleaning(before, stale, removed, keys, now) && key in keys
    ensures key in now.positions && now.positions[key] == before.positions[key]
    ensures key !in stale ==> Cleaning(before, stale, removed, keys - {key}, now)
    ensures key in stale ==>
              Cleaning(before, stale, removed + {key}, keys - {key},
                       Memory(now.positions - {key}, true, now.generation + 1))
  {
    assert before.positions - removed - {key} == before.positions - (removed + {key});
  }

  class Store {
    var positions: Positions
    var dirty: bool
    var generation: nat
    var disk: Positions

    function InMemory(): Memory
      reads this
    {
      Memory(positions, dirty, generation)
    }

    constructor Load(disk: Positions)
      ensures positions == this.disk == disk && !dirty && generation == 0
      ensures InMemory() == Loaded(disk)
    {
      positions, dirty, generation, this.disk := disk, false, 0, disk;
    }

    method Get(key: Identity) returns (p: Option<Position>)
      ensures p == if key in positions then Some(positions[key]) else None
    {
      if key in positions {
        return Some(positions[key]);
      }
      return None;
    }

    method Set(key: Identity, p: Position)
      modifies this
      ensures var known := key in old(positions) && old(positions)[key].offset == p.offset
                           && old(positions)[key].path == p.path;
              && positions == (if known then old(positions) else old(positions)[key := p])
              && dirty == (old(dirty) || !known)
              && generation == old(generation) + if known then 0 else 1
      ensures InMemory() == WithPosition(old(InMemory()), key, p) && disk == old(disk)
    {
      if key in positions {
        var stored := positions[key];
        if stored.offset == p.offset && stored.path == p.path {
          return;
        }
      }
      positions := positions[key := p];
      dirty := true;
      generation := generation + 1;
    }

    /** Goes through the entries in any order. */
    method Cleanup(olderThan: nat, identityAt: Str -> Option<Identity>)
      modifies this
      ensures InMemory() == CleanedUp(old(InMemory()), olderThan, identityAt) && disk == old(disk)
    {
      var keys := positions.Keys;
      ghost var before := InMemory();
      ghost var stale := StaleKeys(positions, olderThan, identityAt);
      ghost var removed: set<Identity> := {};
      CleaningBegins(before, stale);
      while keys != {}
        invariant Cleaning(before, stale, removed, keys, InMemory())
        invariant disk == old(disk)
        decreases |keys|
      {
        hide Cleaning;
        var key :| key in keys;
        CleaningLooks(before, stale, removed, keys, InMemory(), key);
        keys := keys - {key};
        var p := positions[key];
        if p.updatedAt < olderThan {
          if identityAt(p.path) == Some(key) {
            continue;
          }
          positions := positions - {key};
          dirty := true;
          generation := generation + 1;
          removed := removed + {key};
        }
      }
      assert removed == stale;
    }

    /** The part of a save under the first lock; without `force` a clean store is not saved. */
    method BeginSave(force: bool) returns (s: Option<Snapshot>)
      ensures s == if force || dirty then Some(Snapshot(positions, generation)) else None
    {
      if !force && !dirty {
        return None;
      }
      return Some(Snapshot(positions, generation));
    }

    /** Writing, syncing and renaming; any failure before the rename leaves the old file. */
    method WriteFile(s: Snapshot, writeOk: bool)
      modifies this
      ensures disk == (if writeOk then s.positions else old(disk)) && InMemory() == old(InMemory())
    {
      if writeOk {
        disk := s.positions;
      }
    }

    method FinishSave(s: Snapshot)
      modifies this
      ensures positions == old(positions) && generation == old(generation) && disk == old(disk)
      ensures dirty == (old(dirty) && generation != s.generation)
      ensures InMemory() == Finished(old(InMemory()), s)
    {
      if generation == s.generation {
        dirty := false;
      }
    }

    /** A save nothing interferes with: success means the file holds the positions and nothing is dirty. */
    method Save(force: bool, writeOk: bool) returns (ok: bool)
      modifies this
      ensures positions == old(positions) && generation == old(generation)
      ensures ok == ((!force && !old(dirty)) || writeOk)
      ensures if force || old(dirty) then disk == (if writeOk then positions else old(disk)) else disk == old(disk)
      ensures dirty == (old(dirty) && !writeOk)
    {
      var s := BeginSave(force);
      if s.None? {
        return true;
      }
      WriteFile(s.value, writeOk);
      if writeOk {
        FinishSave(s.value);
      }
      return writeOk;
    }
  }

  /** Offset and path are recorded always, the time only of a change; no other file's position is touched. */
  lemma PositionIsRecorded(m: Memory, key: Identity, p: Position)
    ensures var m' := WithPosition(m, key, p);
            && key in m'.positions && m'.positions[key].offset == p.offset && m'.positions[key].path == p.path
            && (m'.positions[key] == p || (m' == m && key in m.positions && m.positions[key] == m'.positions[key]))
            && (m' != m ==> m'.positions[key] == p && m'.dirty && m'.generation == m.generation + 1)
            && (forall k | k != key :: (k in m'.positions <==> k in m.positions)
                                       && (k in m.positions ==> m'.positions[k] == m.positions[k]))
  {
  }

  /**
   Cleanup keeps an entry exactly when it is recent or its file is still found at the recorded path; the
   positions kept are unchanged.
   */
  lemma CleanupKeeps(m: Memory, olderThan: nat, identityAt: Str -> Option<Identity>, key: Identity)
    requires key in m.positions
    ensures key in CleanedUp(m, olderThan, identityAt).positions
            <==> m.positions[key].updatedAt >= olderThan || identityAt(m.positions[key].path) == Some(key)
    ensures key in CleanedUp(m, olderThan, identityAt).positions ==>
              CleanedUp(m, olderThan, identityAt).positions[key] == m.positions[key]
  {
  }

  /** So a quiet file that was renamed loses its entry although it still exists under its identity. */
  lemma CleanupForgetsRenamedFile(key: Identity, other: Identity, oldPath: Str, newPath: Str, offset: nat)
    requires key != other && oldPath != newPath
    ensures var m := Loaded(map[key := Position(oldPath, offset, 0)]);
            var identityAt := path =>
              if path == newPath then Some(key) else if path == oldPath then Some(other) else None;
            identityAt(newPath) == Some(key) && key !in CleanedUp(m, 1, identityAt).positions
  {
    var m := Loaded(map[key := Position(oldPath, offset, 0)]);
    assert m.positions[key] == Position(oldPath, offset, 0);
  }
}
