/**
 Directory snapshots and their differences: two dictionaries filled while a tree is walked,
 and the sets of created, deleted, moved and modified paths between two of them.
 */
module Snapshots {

  /** What `stat` tells of a file; inode and device together identify it. */
  datatype Stat = Stat(ino: int, dev: int, directory: bool, mtime: real, size: int)

  type Id = (int, int)

  function IdOf(st: Stat): Id {
    (st.ino, st.dev)
  }

  datatype Snapshot = Snapshot(stats: map<string, Stat>, pathOf: map<Id, string>) {

    function Paths(): set<string> {
      stats.Keys
    }

    function Inode(path: string): Id
      requires path in stats
    {
      IdOf(stats[path])
    }

    /** The lookup by inode gives a path that is not empty. */
    predicate Finds(id: Id) {
      id in pathOf && pathOf[id] != ""
    }

    /** Every file can be looked up by its inode, and only files can. */
    ghost predicate Valid() {
      && (forall p :: p in stats ==> Inode(p) in pathOf)
      && (forall id :: id in pathOf ==> pathOf[id] in stats)
    }

    /** Each inode names one path. */
    ghost predicate Faithful() {
      && (forall p :: p in stats ==> Inode(p) in pathOf && pathOf[Inode(p)] == p)
      && (forall id :: id in pathOf ==> pathOf[id] in stats && Inode(pathOf[id]) == id)
    }
  }

  // ----- taking a snapshot -----

  type Entries = seq<(string, Stat)>

  /** Later entries replace earlier ones. */
  function Taken(entries: Entries): Snapshot
    decreases |entries|
  {
    if entries == [] then Snapshot(map[], map[])
    else
      var before, last := Taken(entries[..|entries| - 1]), entries[|entries| - 1];
      Snapshot(before.stats[last.0 := last.1], before.pathOf[IdOf(last.1) := last.0])
  }

  lemma TakenSnoc(entries: Entries, n: nat)
    requires n < |entries|
    ensures var before, last := Taken(entries[..n]), entries[n];
      Taken(entries[..n + 1]) == Snapshot(before.stats[last.0 := last.1], before.pathOf[IdOf(last.1) := last.0])
  {
    assert entries[..n + 1][..n] == entries[..n];
  }

  predicate DistinctPaths(entries: Entries) {
    forall i, j :: 0 <= i < j < |entries| ==> entries[i].0 != entries[j].0
  }

  predicate DistinctInodes(entries: Entries) {
    forall i, j :: 0 <= i < j < |entries| ==> IdOf(entries[i].1) != IdOf(entries[j].1)
  }

  ghost predicate HasPath(entries: Entries, path: string) {
    exists i :: 0 <= i < |entries| && entries[i].0 == path
  }

  lemma {:induction false} HasPathStep(front: Entries, last: (string, Stat), path: string)
    ensures HasPath(front + [last], path) <==> HasPath(front, path) || last.0 == path
  {
    var all := front + [last];
    assert all[|front|] == last;
    if i :| 0 <= i < |front| && front[i].0 == path { assert all[i].0 == path; }
    if i :| 0 <= i < |all| && all[i].0 == path { assert i < |front| ==> front[i] == all[i]; }
  }

  lemma {:induction false} TakenPaths(entries: Entries, path: string)
    ensures path in Taken(entries).stats <==> HasPath(entries, path)
    decreases |entries|
  {
    if entries != [] {
      var front, last := entries[..|entries| - 1], entries[|entries| - 1];
      TakenPaths(front, path);
      HasPathStep(front, last, path);
      assert front + [last] == entries;
    }
  }

  /** Whatever was walked, every file is found by its inode and nothing else is. */
  lemma {:induction false} TakenValid(entries: Entries)
    ensures Taken(entries).Valid()
    decreases |entries|
  {
    if entries != [] { TakenValid(entries[..|entries| - 1]); }
  }

  /** Of the entries with one path the last gives its stat. */
  lemma {:induction false} TakenStats(entries: Entries, i: nat)
    requires i < |entries| && forall j :: i < j < |entries| ==> entries[j].0 != entries[i].0
    ensures entries[i].0 in Taken(entries).stats && Taken(entries).stats[entries[i].0] == entries[i].1
    decreases |entries|
  {
    if i < |entries| - 1 {
      TakenStats(entries[..|entries| - 1], i);
    }
  }

  /** Of the entries with one inode the last gives its path. */
  lemma {:induction false} LookupKept(entries: Entries, i: nat)
    requires i < |entries| && forall j :: i < j < |entries| ==> IdOf(entries[j].1) != IdOf(entries[i].1)
    ensures IdOf(entries[i].1) in Taken(entries).pathOf && Taken(entries).pathOf[IdOf(entries[i].1)] == entries[i].0
    decreases |entries|
  {
    if i < |entries| - 1 {
      LookupKept(entries[..|entries| - 1], i);
    }
  }

  /** When a walk meets every path once, the snapshot is faithful exactly if no two share an inode. */
  lemma {:induction false} FaithfulIff(entries: Entries)
    requires DistinctPaths(entries)
    ensures Taken(entries).Faithful() <==> DistinctInodes(entries)
  {
    var t := Taken(entries);
    TakenValid(entries);
    if t.Faithful() {
      forall i, j | 0 <= i < j < |entries| ensures IdOf(entries[i].1) != IdOf(entries[j].1) {
        TakenStats(entries, i);
        TakenStats(entries, j);
      }
    }
    if DistinctInodes(entries) {
      forall p | p in t.stats ensures t.pathOf[t.Inode(p)] == p {
        TakenPaths(entries, p);
        var i :| 0 <= i < |entries| && entries[i].0 == p;
        TakenStats(entries, i);
        LookupKept(entries, i);
      }
      forall id | id in t.pathOf ensures t.Inode(t.pathOf[id]) == id {
        LookupIsInode(entries, id);
      }
    }
  }

  lemma {:induction false} LookupIsInode(entries: Entries, id: Id)
    requires DistinctPaths(entries) && id in Taken(entries).pathOf
    ensures Taken(entries).pathOf[id] in Taken(entries).stats
    ensures Taken(entries).Inode(Taken(entries).pathOf[id]) == id
    decreases |entries|
  {
    var front, last := entries[..|entries| - 1], entries[|entries| - 1];
    if id != IdOf(last.1) {
      LookupIsInode(front, id);
      var p := Taken(front).pathOf[id];
      TakenPaths(front, p);
      var i :| 0 <= i < |front| && front[i].0 == p;
      assert entries[i].0 == p && entries[|front|] == last;
    }
  }

  class DirectorySnapshot {
    var stats: map<string, Stat>
    var pathOf: map<Id, string>

    function Info(): Snapshot
      reads this
    {
      Snapshot(stats, pathOf)
    }

    /** The root first, then whatever the walk gives. */
    constructor (path: string, st: Stat, walked: Entries)
      ensures Info() == Taken([(path, st)] + walked) && Info().Valid()
    {
      stats := map[path := st];
      pathOf := map[IdOf(st) := path];
      new;
      ghost var all := [(path, st)] + walked;
      TakenSnoc(all, 0);
      for n := 0 to |walked|
        invariant Info() == Taken(all[..n + 1])
      {
        var (p, st) := walked[n];
        pathOf := pathOf[IdOf(st) := p];
        stats := stats[p := st];
        TakenSnoc(all, n + 1);
      }
      assert all[..|walked| + 1] == all;
      TakenValid(all);
    }
  }

  // ----- the difference of two snapshots -----

  datatype Diff = Diff(created: set<string>, deleted: set<string>, moved: set<(string, string)>, modified: set<string>)

  /** Inodes compare with or without the device. */
  predicate SameInode(a: Id, b: Id, ignoreDevice: bool) {
    if ignoreDevice then a.0 == b.0 else a == b
  }

  predicate Changed(a: Stat, b: Stat) {
    a.mtime != b.mtime || a.size != b.size
  }

  /** A path of one snapshot that the other does not have, or has for another file. */
  predicate Only(ref: Snapshot, snap: Snapshot, ignoreDevice: bool, p: string) {
    p in ref.stats && (p !in snap.stats || !SameInode(ref.Inode(p), snap.Inode(p), ignoreDevice))
  }

  /** A move: a gone path whose inode the new snapshot finds, or a new path whose inode the old one finds. */
  predicate IsMove(ref: Snapshot, snap: Snapshot, ignoreDevice: bool, m: (string, string)) {
    || (Only(ref, snap, ignoreDevice, m.0) && snap.Finds(ref.Inode(m.0)) && snap.pathOf[ref.Inode(m.0)] == m.1)
    || (Only(snap, ref, ignoreDevice, m.1) && ref.Finds(snap.Inode(m.1)) && ref.pathOf[snap.Inode(m.1)] == m.0)
  }

  predicate InPlaceChange(ref: Snapshot, snap: Snapshot, ignoreDevice: bool, p: string) {
    && p in ref.stats && p in snap.stats && SameInode(ref.Inode(p), snap.Inode(p), ignoreDevice)
    && Changed(ref.stats[p], snap.stats[p])
  }

  predicate MoveChange(ref: Snapshot, snap: Snapshot, m: (string, string)) {
    m.0 in ref.stats && m.1 in snap.stats && Changed(ref.stats[m.0], snap.stats[m.1])
  }

  ghost predicate AreCreated(paths: set<string>, ref: Snapshot, snap: Snapshot, ignoreDevice: bool) {
    forall p :: p in paths <==> Only(snap, ref, ignoreDevice, p) && !ref.Finds(snap.Inode(p))
  }

  ghost predicate AreDeleted(paths: set<string>, ref: Snapshot, snap: Snapshot, ignoreDevice: bool) {
    forall p :: p in paths <==> Only(ref, snap, ignoreDevice, p) && !snap.Finds(ref.Inode(p))
  }

  ghost predicate AreMoved(moves: set<(string, string)>, ref: Snapshot, snap: Snapshot, ignoreDevice: bool) {
    forall m :: m in moves <==> IsMove(ref, snap, ignoreDevice, m)
  }

  ghost predicate AreModified(paths: set<string>, moves: set<(string, string)>, ref: Snapshot, snap: Snapshot, ignoreDevice: bool) {
    forall p :: p in paths <==>
      InPlaceChange(ref, snap, ignoreDevice, p) || exists m :: m in moves && m.0 == p && MoveChange(ref, snap, m)
  }

  /** The four sets as they come out. */
  ghost predicate Compared(d: Diff, ref: Snapshot, snap: Snapshot, ignoreDevice: bool) {
    && AreCreated(d.created, ref, snap, ignoreDevice) && AreDeleted(d.deleted, ref, snap, ignoreDevice)
    && AreMoved(d.moved, ref, snap, ignoreDevice) && AreModified(d.modified, d.moved, ref, snap, ignoreDevice)
  }

  ghost predicate AreOnly(paths: set<string>, ref: Snapshot, snap: Snapshot, ignoreDevice: bool) {
    forall p :: p in paths <==> Only(ref, snap, ignoreDevice, p)
  }

  /** What is left of the paths of one side: those whose inode the other does not find. */
  ghost predicate AreUnpaired(left: set<string>, paths: set<string>, from: Snapshot, other: Snapshot) {
    forall p :: p in left <==> p in paths && p in from.stats && !other.Finds(from.Inode(p))
  }

  predicate PairsForward(paths: set<string>, ref: Snapshot, snap: Snapshot, m: (string, string)) {
    m.0 in paths && m.0 in ref.stats && snap.Finds(ref.Inode(m.0)) && snap.pathOf[ref.Inode(m.0)] == m.1
  }

  predicate PairsBackward(paths: set<string>, ref: Snapshot, snap: Snapshot, m: (string, string)) {
    m.1 in paths && m.1 in snap.stats && ref.Finds(snap.Inode(m.1)) && ref.pathOf[snap.Inode(m.1)] == m.0
  }

  ghost predicate ArePairs(moves: set<(string, string)>, gone: set<string>, added: set<string>, ref: Snapshot, snap: Snapshot) {
    forall m :: m in moves <==> PairsForward(gone, ref, snap, m) || PairsBackward(added, ref, snap, m)
  }

  /** Each path is listed with the directories or with the files, as the snapshot that has it says. */
  ghost predicate DividesPaths(dirs: set<string>, files: set<string>, from: Snapshot) {
    && (forall p :: p in dirs ==> p in from.stats && from.stats[p].directory)
    && (forall p :: p in files ==> p in from.stats && !from.stats[p].directory)
  }

  ghost predicate DividesMoves(dirs: set<(string, string)>, files: set<(string, string)>, from: Snapshot) {
    && (forall m :: m in dirs ==> m.0 in from.stats && from.stats[m.0].directory)
    && (forall m :: m in files ==> m.0 in from.stats && !from.stats[m.0].directory)
  }

  class DirectorySnapshotDiff {
    var filesCreated: set<string>
    var filesDeleted: set<string>
    var filesModified: set<string>
    var filesMoved: set<(string, string)>
    var dirsCreated: set<string>
    var dirsDeleted: set<string>
    var dirsModified: set<string>
    var dirsMoved: set<(string, string)>

    function All(): Diff
      reads this
    {
      Diff(dirsCreated + filesCreated, dirsDeleted + filesDeleted, dirsMoved + filesMoved, dirsModified + filesModified)
    }

    ghost predicate Sorted(ref: Snapshot, snap: Snapshot)
      reads this
    {
      && DividesPaths(dirsCreated, filesCreated, snap) && DividesPaths(dirsDeleted, filesDeleted, ref)
      && DividesPaths(dirsModified, filesModified, ref) && DividesMoves(dirsMoved, filesMoved, ref)
    }

    constructor (before: DirectorySnapshot, after: DirectorySnapshot, ignoreDevice: bool := false)
      requires before.Info().Valid() && after.Info().Valid()
      ensures Compared(All(), before.Info(), after.Info(), ignoreDevice)
      ensures Sorted(before.Info(), after.Info())
    {
      var ref, snap := before.Info(), after.Info();
      var d := Compare(ref, snap, ignoreDevice);
      ComparedPaths(d, ref, snap, ignoreDevice);
      var createdDirs, createdFiles := SplitPaths(d.created, snap);
      var deletedDirs, deletedFiles := SplitPaths(d.deleted, ref);
      var modifiedDirs, modifiedFiles := SplitPaths(d.modified, ref);
      var movedDirs, movedFiles := SplitMoves(d.moved, ref);
      dirsCreated, filesCreated := createdDirs, createdFiles;
      dirsDeleted, filesDeleted := deletedDirs, deletedFiles;
      dirsModified, filesModified := modifiedDirs, modifiedFiles;
      dirsMoved, filesMoved := movedDirs, movedFiles;
      new;
      assert All() == d;
    }
  }

  method SplitPaths(paths: set<string>, from: Snapshot) returns (dirs: set<string>, files: set<string>)
    requires paths <= from.Paths()
    ensures dirs + files == paths
    ensures DividesPaths(dirs, files, from)
  {
    dirs := set p | p in paths && from.stats[p].directory;
    files := paths - dirs;
  }

  method SplitMoves(moves: set<(string, string)>, from: Snapshot)
      returns (dirs: set<(string, string)>, files: set<(string, string)>)
    requires forall m :: m in moves ==> m.0 in from.stats
    ensures dirs + files == moves
    ensures DividesMoves(dirs, files, from)
  {
    dirs := set m | m in moves && from.stats[m.0].directory;
    files := moves - dirs;
  }

  lemma {:induction false} MovePaths(moves: set<(string, string)>, ref: Snapshot, snap: Snapshot, ignoreDevice: bool)
    requires ref.Valid() && snap.Valid() && AreMoved(moves, ref, snap, ignoreDevice)
    ensures forall m :: m in moves ==> m.0 in ref.stats && m.1 in snap.stats
  {
    forall m | m in moves ensures m.0 in ref.stats && m.1 in snap.stats {
      assert IsMove(ref, snap, ignoreDevice, m);
    }
  }

  lemma {:induction false} ModifiedPaths(paths: set<string>, moves: set<(string, string)>, ref: Snapshot, snap: Snapshot, ignoreDevice: bool)
    requires AreModified(paths, moves, ref, snap, ignoreDevice)
    ensures paths <= ref.Paths()
  {
    forall p | p in paths ensures p in ref.stats {
      if !InPlaceChange(ref, snap, ignoreDevice, p) {
        var m :| m in moves && m.0 == p && MoveChange(ref, snap, m);
      }
    }
  }

  /** Which side has the paths that are reported. */
  lemma {:induction false} ComparedPaths(d: Diff, ref: Snapshot, snap: Snapshot, ignoreDevice: bool)
    requires ref.Valid() && snap.Valid() && Compared(d, ref, snap, ignoreDevice)
    ensures d.created <= snap.Paths() && d.deleted <= ref.Paths() && d.modified <= ref.Paths()
    ensures forall m :: m in d.moved ==> m.0 in ref.stats && m.1 in snap.stats
  {
    MovePaths(d.moved, ref, snap, ignoreDevice);
    ModifiedPaths(d.modified, d.moved, ref, snap, ignoreDevice);
  }

  lemma {:induction false} UnpairedAreCreated(created: set<string>, added: set<string>, ref: Snapshot, snap: Snapshot, ignoreDevice: bool)
    requires AreOnly(added, snap, ref, ignoreDevice) && AreUnpaired(created, added, snap, ref)
    ensures AreCreated(created, ref, snap, ignoreDevice)
  {
  }

  lemma {:induction false} UnpairedAreDeleted(deleted: set<string>, gone: set<string>, ref: Snapshot, snap: Snapshot, ignoreDevice: bool)
    requires AreOnly(gone, ref, snap, ignoreDevice) && AreUnpaired(deleted, gone, ref, snap)
    ensures AreDeleted(deleted, ref, snap, ignoreDevice)
  {
  }

  lemma {:induction false} PairsAreMoves(moves: set<(string, string)>, gone: set<string>, added: set<string>, ref: Snapshot, snap: Snapshot, ignoreDevice: bool)
    requires AreOnly(gone, ref, snap, ignoreDevice) && AreOnly(added, snap, ref, ignoreDevice)
    requires ArePairs(moves, gone, added, ref, snap)
    ensures AreMoved(moves, ref, snap, ignoreDevice)
  {
    forall m ensures m in moves <==> IsMove(ref, snap, ignoreDevice, m) {
      assert m.0 in gone <==> Only(ref, snap, ignoreDevice, m.0);
      assert m.1 in added <==> Only(snap, ref, ignoreDevice, m.1);
    }
  }

  /** The difference, in the steps of the source. */
  method Compare(ref: Snapshot, snap: Snapshot, ignoreDevice: bool) returns (d: Diff)
    requires ref.Valid() && snap.Valid()
    ensures Compared(d, ref, snap, ignoreDevice)
  {
    var added, gone := Differing(ref, snap, ignoreDevice);
    var deleted, moved := PairDeleted(ref, snap, gone);
    var created;
    created, moved := PairCreated(ref, snap, gone, added, moved);
    UnpairedAreCreated(created, added, ref, snap, ignoreDevice);
    UnpairedAreDeleted(deleted, gone, ref, snap, ignoreDevice);
    PairsAreMoves(moved, gone, added, ref, snap, ignoreDevice);
    MovePaths(moved, ref, snap, ignoreDevice);
    var modified := Modified(ref, snap, moved, ignoreDevice);
    d := Diff(created, deleted, moved, modified);
  }

  /** The paths only one side has, and those whose inode differs on both. */
  method Differing(ref: Snapshot, snap: Snapshot, ignoreDevice: bool) returns (created: set<string>, deleted: set<string>)
    ensures AreOnly(created, snap, ref, ignoreDevice) && created <= snap.Paths()
    ensures AreOnly(deleted, ref, snap, ignoreDevice) && deleted <= ref.Paths()
  {
    created := snap.Paths() - ref.Paths();
    deleted := ref.Paths() - snap.Paths();
    var todo := ref.Paths() * snap.Paths();
    while todo != {}
      invariant todo <= ref.Paths() * snap.Paths()
      invariant forall p :: p in created <==> Only(snap, ref, ignoreDevice, p) && p !in todo
      invariant forall p :: p in deleted <==> Only(ref, snap, ignoreDevice, p) && p !in todo
      decreases |todo|
    {
      var path :| path in todo;
      if !SameInode(ref.Inode(path), snap.Inode(path), ignoreDevice) {
        created := created + {path};
        deleted := deleted + {path};
      }
      todo := todo - {path};
    }
  }

  /** A deleted path whose inode the new snapshot finds is moved. */
  method PairDeleted(ref: Snapshot, snap: Snapshot, gone: set<string>)
      returns (deleted: set<string>, moved: set<(string, string)>)
    requires gone <= ref.Paths()
    ensures AreUnpaired(deleted, gone, ref, snap)
    ensures forall m :: m in moved <==> PairsForward(gone, ref, snap, m)
  {
    deleted, moved := gone, {};
    var todo := deleted;
    while todo != {}
      invariant todo <= gone
      invariant forall p :: p in deleted <==> p in gone && (p in todo || !snap.Finds(ref.Inode(p)))
      invariant forall m :: m in moved <==> PairsForward(gone - todo, ref, snap, m)
      decreases |todo|
    {
      var path :| path in todo;
      var inode := ref.Inode(path);
      if snap.Finds(inode) {
        deleted := deleted - {path};
        moved := moved + {(path, snap.pathOf[inode])};
      }
      todo := todo - {path};
    }
    assert gone - todo == gone;
  }

  /** A created path whose inode the old snapshot finds is moved. */
  method PairCreated(ref: Snapshot, snap: Snapshot, ghost gone: set<string>, added: set<string>, before: set<(string, string)>)
      returns (created: set<string>, moved: set<(string, string)>)
    requires added <= snap.Paths()
    requires forall m :: m in before <==> PairsForward(gone, ref, snap, m)
    ensures AreUnpaired(created, added, snap, ref)
    ensures ArePairs(moved, gone, added, ref, snap)
  {
    created, moved := added, before;
    var todo := created;
    while todo != {}
      invariant todo <= added
      invariant forall p :: p in created <==> p in added && (p in todo || !ref.Finds(snap.Inode(p)))
      invariant ArePairs(moved, gone, added - todo, ref, snap)
      decreases |todo|
    {
      var path :| path in todo;
      var inode := snap.Inode(path);
      if ref.Finds(inode) {
        created := created - {path};
        moved := moved + {(ref.pathOf[inode], path)};
      }
      todo := todo - {path};
    }
    assert added - todo == added;
  }

  /** Paths that stayed or moved, and have another time or size. */
  method Modified(ref: Snapshot, snap: Snapshot, moved: set<(string, string)>, ignoreDevice: bool)
      returns (modified: set<string>)
    requires forall m :: m in moved ==> m.0 in ref.stats && m.1 in snap.stats
    ensures AreModified(modified, moved, ref, snap, ignoreDevice)
  {
    modified := {};
    var todo := ref.Paths() * snap.Paths();
    while todo != {}
      invariant todo <= ref.Paths() * snap.Paths()
      invariant forall p :: p in modified <==> InPlaceChange(ref, snap, ignoreDevice, p) && p !in todo
      decreases |todo|
    {
      var path :| path in todo;
      if SameInode(ref.Inode(path), snap.Inode(path), ignoreDevice) {
        if Changed(ref.stats[path], snap.stats[path]) {
          modified := modified + {path};
        }
      }
      todo := todo - {path};
    }
    var rest := moved;
    while rest != {}
      invariant rest <= moved
      invariant forall p :: p in modified <==>
        InPlaceChange(ref, snap, ignoreDevice, p)
        || exists m :: m in moved && m !in rest && m.0 == p && MoveChange(ref, snap, m)
      decreases |rest|
    {
      var m :| m in rest;
      if Changed(ref.stats[m.0], snap.stats[m.1]) {
        modified := modified + {m.0};
      }
      rest := rest - {m};
    }
  }
}
