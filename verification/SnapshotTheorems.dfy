/**
 What a difference of two snapshots means, when each inode names one path in both: it is the
 plain comparison of files by inode, and replaying it turns the old path table into the new.
 */
module SnapshotTheorems {
  import opened Snapshots

  /** A file of one snapshot whose inode the other does not know. */
  predicate NewFile(ref: Snapshot, snap: Snapshot, p: string) {
    p in snap.stats && snap.Inode(p) !in ref.pathOf
  }

  /** The same file under two names. */
  predicate Renamed(ref: Snapshot, snap: Snapshot, from: string, to: string) {
    from in ref.stats && to in snap.stats && from != to && ref.Inode(from) == snap.Inode(to)
  }

  predicate Rewritten(before: Stat, after: Stat) {
    before.mtime != after.mtime || before.size != after.size
  }

  /** The same file, with another time or size. */
  predicate Touched(ref: Snapshot, snap: Snapshot, p: string) {
    p in ref.stats && ref.Inode(p) in snap.pathOf &&
    var now := snap.pathOf[ref.Inode(p)];
    now in snap.stats && Rewritten(ref.stats[p], snap.stats[now])
  }

  ghost predicate Named(s: Snapshot) {
    s.Faithful() && "" !in s.stats
  }

  /** Two faithful snapshots agree on a path exactly if they give it the same inode. */
  lemma {:induction false} OnlyMeans(ref: Snapshot, snap: Snapshot, p: string)
    requires ref.Faithful() && snap.Faithful() && p in ref.stats
    ensures Only(ref, snap, false, p) <==> (ref.Inode(p) in snap.pathOf ==> snap.pathOf[ref.Inode(p)] != p)
  {
  }

  lemma {:induction false} CreatedExact(paths: set<string>, ref: Snapshot, snap: Snapshot, p: string)
    requires Named(ref) && Named(snap) && AreCreated(paths, ref, snap, false)
    ensures p in paths <==> NewFile(ref, snap, p)
  {
    if p in snap.stats {
      OnlyMeans(snap, ref, p);
    }
  }

  lemma {:induction false} DeletedExact(paths: set<string>, ref: Snapshot, snap: Snapshot, p: string)
    requires Named(ref) && Named(snap) && AreDeleted(paths, ref, snap, false)
    ensures p in paths <==> NewFile(snap, ref, p)
  {
    if p in ref.stats {
      OnlyMeans(ref, snap, p);
    }
  }

  lemma {:induction false} MoveIsRename(ref: Snapshot, snap: Snapshot, m: (string, string))
    requires Named(ref) && Named(snap)
    ensures IsMove(ref, snap, false, m) <==> Renamed(ref, snap, m.0, m.1)
  {
    if m.0 in ref.stats { OnlyMeans(ref, snap, m.0); }
    if m.1 in snap.stats { OnlyMeans(snap, ref, m.1); }
  }

  lemma {:induction false} ModifiedExact(d: Diff, ref: Snapshot, snap: Snapshot, p: string)
    requires Named(ref) && Named(snap) && Compared(d, ref, snap, false)
    ensures p in d.modified <==> Touched(ref, snap, p)
  {
    if InPlaceChange(ref, snap, false, p) {
      assert snap.pathOf[ref.Inode(p)] == p;
    }
    if m :| m in d.moved && m.0 == p && MoveChange(ref, snap, m) {
      MoveIsRename(ref, snap, m);
    }
    if Touched(ref, snap, p) {
      var now := snap.pathOf[ref.Inode(p)];
      if now != p {
        MoveIsRename(ref, snap, (p, now));
        assert (p, now) in d.moved && MoveChange(ref, snap, (p, now));
      }
    }
  }

  /** The difference is the plain comparison of files by inode. */
  lemma {:induction false} DiffIsExact(d: Diff, ref: Snapshot, snap: Snapshot)
    requires Named(ref) && Named(snap) && Compared(d, ref, snap, false)
    ensures forall p :: p in d.created <==> NewFile(ref, snap, p)
    ensures forall p :: p in d.deleted <==> NewFile(snap, ref, p)
    ensures forall from, to :: (from, to) in d.moved <==> Renamed(ref, snap, from, to)
    ensures forall p :: p in d.modified <==> Touched(ref, snap, p)
  {
    forall p ensures p in d.created <==> NewFile(ref, snap, p) { CreatedExact(d.created, ref, snap, p); }
    forall p ensures p in d.deleted <==> NewFile(snap, ref, p) { DeletedExact(d.deleted, ref, snap, p); }
    forall from, to ensures (from, to) in d.moved <==> Renamed(ref, snap, from, to) {
      MoveIsRename(ref, snap, (from, to));
    }
    forall p ensures p in d.modified <==> Touched(ref, snap, p) { ModifiedExact(d, ref, snap, p); }
  }

  /** No file moves to two places, and no two files to one. */
  lemma {:induction false} MovesOneToOne(d: Diff, ref: Snapshot, snap: Snapshot, m: (string, string), n: (string, string))
    requires Named(ref) && Named(snap) && Compared(d, ref, snap, false) && m in d.moved && n in d.moved
    ensures m.0 == n.0 <==> m.1 == n.1
  {
    MoveIsRename(ref, snap, m);
    MoveIsRename(ref, snap, n);
  }

  // ----- comparing without devices -----

  predicate OnDevice(s: Snapshot, dev: int) {
    forall p :: p in s.stats ==> s.stats[p].dev == dev
  }

  /** On one device it makes no difference whether devices are compared. */
  lemma {:induction false} OneDevice(d: Diff, ref: Snapshot, snap: Snapshot, dev: int)
    requires OnDevice(ref, dev) && OnDevice(snap, dev)
    ensures Compared(d, ref, snap, true) <==> Compared(d, ref, snap, false)
  {
    forall p ensures Only(ref, snap, true, p) <==> Only(ref, snap, false, p) {}
    forall p ensures Only(snap, ref, true, p) <==> Only(snap, ref, false, p) {}
    forall m ensures IsMove(ref, snap, true, m) <==> IsMove(ref, snap, false, m) {}
    forall p ensures InPlaceChange(ref, snap, true, p) <==> InPlaceChange(ref, snap, false, p) {}
  }

  /** The path has the same inode number in both. */
  predicate SameNumber(ref: Snapshot, snap: Snapshot, p: string) {
    p in ref.stats && p in snap.stats && ref.stats[p].ino == snap.stats[p].ino
  }

  /** On a device that got another number files are compared path by path, and no move is found. */
  lemma {:induction false} RenumberedDevice(d: Diff, ref: Snapshot, snap: Snapshot, dev: int, dev': int)
    requires Sound(ref) && Sound(snap)
    requires OnDevice(ref, dev) && OnDevice(snap, dev') && dev != dev' && Compared(d, ref, snap, true)
    ensures forall p :: p in d.created <==> p in snap.stats && !SameNumber(ref, snap, p)
    ensures forall p :: p in d.deleted <==> p in ref.stats && !SameNumber(ref, snap, p)
    ensures d.moved == {}
    ensures forall p :: p in d.modified <==> SameNumber(ref, snap, p) && Rewritten(ref.stats[p], snap.stats[p])
  {
    forall p | p in ref.stats ensures !snap.Finds(ref.Inode(p)) { NotFoundThere(ref, snap, p, dev, dev'); }
    forall p | p in snap.stats ensures !ref.Finds(snap.Inode(p)) { NotFoundThere(snap, ref, p, dev', dev); }
    forall m ensures m !in d.moved { assert !IsMove(ref, snap, true, m); }
    forall p ensures Only(ref, snap, true, p) <==> p in ref.stats && !SameNumber(ref, snap, p) {}
    forall p ensures Only(snap, ref, true, p) <==> p in snap.stats && !SameNumber(ref, snap, p) {}
    forall p ensures p in d.modified <==> InPlaceChange(ref, snap, true, p) {}
  }

  /** What is found by an inode has that inode. */
  ghost predicate Sound(s: Snapshot) {
    forall id :: id in s.pathOf ==> s.pathOf[id] in s.stats && s.Inode(s.pathOf[id]) == id
  }

  lemma {:induction false} NotFoundThere(s: Snapshot, other: Snapshot, p: string, dev: int, dev': int)
    requires Sound(other) && p in s.stats && OnDevice(s, dev) && OnDevice(other, dev') && dev != dev'
    ensures !other.Finds(s.Inode(p))
  {
  }

  // ----- replaying a difference -----

  type Table = map<string, Id>

  function TableOf(s: Snapshot): Table {
    map p | p in s.stats :: s.Inode(p)
  }

  ghost predicate IsSource(d: Diff, p: string) {
    exists to :: (p, to) in d.moved
  }

  ghost predicate IsDest(d: Diff, p: string) {
    exists from :: (from, p) in d.moved
  }

  /**
   All changes at once: gone are the deleted paths and the sources of moves, in come the created
   paths, with the inodes they are found to have, and the destinations, with their sources' inodes.
   */
  ghost predicate Replays(before: Table, d: Diff, found: Table, after: Table) {
    && (forall p :: p in after <==> (p in before && p !in d.deleted && !IsSource(d, p)) || p in d.created || IsDest(d, p))
    && (forall from, p :: (from, p) in d.moved && p in after ==> from in before && after[p] == before[from])
    && (forall p :: p in after && !IsDest(d, p) ==>
          if p in d.created then p in found && after[p] == found[p] else p in before && after[p] == before[p])
  }

  lemma {:induction false} ReplayDetermined(before: Table, d: Diff, found: Table, after: Table, other: Table)
    requires Replays(before, d, found, after) && Replays(before, d, found, other)
    ensures after == other
  {
    forall p | p in after ensures after[p] == other[p] {
      if IsDest(d, p) {
        var from :| (from, p) in d.moved;
      }
    }
  }

  lemma {:induction false} ReplayPaths(d: Diff, ref: Snapshot, snap: Snapshot, p: string)
    requires Named(ref) && Named(snap) && Compared(d, ref, snap, false)
    ensures p in snap.stats <==> (p in ref.stats && p !in d.deleted && !IsSource(d, p)) || p in d.created || IsDest(d, p)
  {
    DiffIsExact(d, ref, snap);
    if p in snap.stats && p !in d.created {
      var from := ref.pathOf[snap.Inode(p)];
      assert from == p || (from, p) in d.moved;
    }
    if p in ref.stats && p !in d.deleted {
      var to := snap.pathOf[ref.Inode(p)];
      if to != p {
        assert (p, to) in d.moved;
      }
    }
  }

  /** The difference rebuilds the new snapshot's path-to-inode table from the old one's. */
  lemma {:induction false} DiffReplays(d: Diff, ref: Snapshot, snap: Snapshot)
    requires Named(ref) && Named(snap) && Compared(d, ref, snap, false)
    ensures Replays(TableOf(ref), d, TableOf(snap), TableOf(snap))
  {
    forall p ensures p in TableOf(snap) <==>
      (p in TableOf(ref) && p !in d.deleted && !IsSource(d, p)) || p in d.created || IsDest(d, p)
    {
      ReplayPaths(d, ref, snap, p);
    }
    DiffIsExact(d, ref, snap);
    forall p | p in TableOf(snap) && !IsDest(d, p) && p !in d.created
      ensures p in TableOf(ref) && TableOf(snap)[p] == TableOf(ref)[p]
    {
      var from := ref.pathOf[snap.Inode(p)];
      assert from == p || (from, p) in d.moved;
    }
  }
}
