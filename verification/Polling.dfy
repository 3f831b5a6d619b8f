/**
 The polling emitter: takes a snapshot each round, reports the difference from the last one as
 events, and keeps the new one.
 */
module Polling {
  import opened Common
  import opened Snapshots
  import opened SnapshotTheorems

  datatype Event =
    | Deleted(path: string, directory: bool)
    | Modified(path: string, directory: bool)
    | Created(path: string, directory: bool)
    | Moved(path: string, to: string, directory: bool)

  /** Files before directories; then deleted, modified, created, moved. */
  function Rank(e: Event): nat {
    (if e.directory then 4 else 0) + (match e case Deleted(_, _) => 0 case Modified(_, _) => 1 case Created(_, _) => 2 case Moved(_, _, _) => 3)
  }

  /** The event belongs to the difference, with the kind of file as the side that has it says. */
  predicate Reported(e: Event, d: Diff, ref: Snapshot, snap: Snapshot) {
    match e
    case Deleted(p, dir) => p in d.deleted && p in ref.stats && dir == ref.stats[p].directory
    case Modified(p, dir) => p in d.modified && p in ref.stats && dir == ref.stats[p].directory
    case Created(p, dir) => p in d.created && p in snap.stats && dir == snap.stats[p].directory
    case Moved(p, to, dir) => (p, to) in d.moved && p in ref.stats && dir == ref.stats[p].directory
  }

  predicate InOrder(events: seq<Event>) {
    forall i, j :: 0 <= i < j < |events| ==> Rank(events[i]) <= Rank(events[j])
  }

  /** A batch reports a difference: every change in it once, kind by kind, and nothing else. */
  ghost predicate Reports(batch: seq<Event>, d: Diff, ref: Snapshot, snap: Snapshot) {
    Distinct(batch) && InOrder(batch) && forall e :: e in batch <==> Reported(e, d, ref, snap)
  }

  /** The part of a batch with the kinds below some rank. */
  ghost predicate ReportsBelow(batch: seq<Event>, rank: nat, d: Diff, ref: Snapshot, snap: Snapshot) {
    Distinct(batch) && InOrder(batch) && forall e :: e in batch <==> Reported(e, d, ref, snap) && Rank(e) < rank
  }

  lemma {:induction false} NextKind(batch: seq<Event>, more: seq<Event>, rank: nat, d: Diff, ref: Snapshot, snap: Snapshot)
    requires ReportsBelow(batch, rank, d, ref, snap)
    requires Distinct(more) && forall e :: e in more <==> Reported(e, d, ref, snap) && Rank(e) == rank
    ensures ReportsBelow(batch + more, rank + 1, d, ref, snap)
  {
    var all, n := batch + more, |batch|;
    forall i, j | 0 <= i < j < |all| ensures all[i] != all[j] && Rank(all[i]) <= Rank(all[j]) {
      assert all[i] == (if i < n then batch[i] else more[i - n]) && all[j] == (if j < n then batch[j] else more[j - n]);
      assert i < n ==> batch[i] in batch;
      assert j >= n ==> more[j - n] in more;
      assert i >= n ==> more[i - n] in more;
    }
  }

  class PollingEmitter {
    const root: string
    var snapshot: DirectorySnapshot?
    /** What was handed to `queue_event`, in order. */
    var queued: seq<Event>
    var stopped: bool

    constructor (root: string)
      ensures this.root == root && snapshot == null && queued == [] && !stopped
    {
      this.root, snapshot, queued, stopped := root, null, [], false;
    }

    method OnThreadStart(taken: DirectorySnapshot)
      modifies this`snapshot
      ensures snapshot == taken
    {
      snapshot := taken;
    }

    /** Queues events in some order, each once. */
    method QueueAll(events: set<Event>)
      modifies this`queued
      ensures old(queued) <= queued && Distinct(queued[|old(queued)|..])
      ensures forall e :: e in queued[|old(queued)|..] <==> e in events
    {
      var todo := events;
      ghost var sent: seq<Event> := [];
      while todo != {}
        invariant todo <= events && queued == old(queued) + sent && Distinct(sent)
        invariant forall e :: e in sent <==> e in events - todo
        decreases |todo|
      {
        var e :| e in todo;
        queued := queued + [e];
        assert forall i :: 0 <= i < |sent| ==> sent[i] in sent;
        sent := sent + [e];
        todo := todo - {e};
      }
      assert queued[|old(queued)|..] == sent;
    }

    /** Queues one kind after the kinds below it. */
    method QueueKind(events: set<Event>, ghost start: nat, ghost rank: nat, ghost d: Diff, ghost ref: Snapshot, ghost snap: Snapshot)
      requires start <= |queued| && ReportsBelow(queued[start..], rank, d, ref, snap)
      requires IsKind(events, rank, d, ref, snap)
      modifies this`queued
      ensures old(queued) <= queued && ReportsBelow(queued[start..], rank + 1, d, ref, snap)
    {
      QueueAll(events);
      ghost var more := queued[|old(queued)|..];
      NextKind(old(queued)[start..], more, rank, d, ref, snap);
      assert queued[start..] == old(queued)[start..] + more;
    }

    /** Queues the eight lists of a difference, files first. */
    method QueueDiff(diff: DirectorySnapshotDiff, ghost ref: Snapshot, ghost snap: Snapshot)
      requires diff.Sorted(ref, snap)
      modifies this`queued
      ensures old(queued) <= queued && Reports(queued[|old(queued)|..], diff.All(), ref, snap)
    {
      ghost var d := diff.All();
      ghost var n := |queued|;
      KindSets(diff, ref, snap);
      QueueKind(set p | p in diff.filesDeleted :: Deleted(p, false), n, 0, d, ref, snap);
      QueueKind(set p | p in diff.filesModified :: Modified(p, false), n, 1, d, ref, snap);
      QueueKind(set p | p in diff.filesCreated :: Created(p, false), n, 2, d, ref, snap);
      QueueKind(set m | m in diff.filesMoved :: Moved(m.0, m.1, false), n, 3, d, ref, snap);
      QueueKind(set p | p in diff.dirsDeleted :: Deleted(p, true), n, 4, d, ref, snap);
      QueueKind(set p | p in diff.dirsModified :: Modified(p, true), n, 5, d, ref, snap);
      QueueKind(set p | p in diff.dirsCreated :: Created(p, true), n, 6, d, ref, snap);
      QueueKind(set m | m in diff.dirsMoved :: Moved(m.0, m.1, true), n, 7, d, ref, snap);
    }

    /**
     One round.  Nothing happens once the emitter is stopped.  A snapshot that cannot be taken
     reports the root as deleted and stops the emitter; else the difference is queued.
     */
    method QueueEvents(stoppedWhileWaiting: bool, stoppedBeforeLock: bool, taken: DirectorySnapshot?)
      requires snapshot != null && snapshot.Info().Valid() && (taken != null ==> taken.Info().Valid())
      modifies this
      ensures old(queued) <= queued
      ensures var halted := old(stopped) || stoppedWhileWaiting || stoppedBeforeLock;
        if halted then stopped && queued == old(queued) && snapshot == old(snapshot)
        else if taken == null then stopped && queued == old(queued) + [Deleted(root, true)] && snapshot == old(snapshot)
        else !stopped && snapshot == taken && Step(old(snapshot.Info()), taken.Info(), queued[|old(queued)|..])
    {
      stopped := stopped || stoppedWhileWaiting;
      if stopped { return; }
      stopped := stoppedBeforeLock;
      if stopped { return; }
      if taken == null {
        queued := queued + [Deleted(root, true)];
        stopped := true;
        return;
      }
      var events := new DirectorySnapshotDiff(snapshot, taken);
      ghost var ref, snap := snapshot.Info(), taken.Info();
      snapshot := taken;
      QueueDiff(events, ref, snap);
      assert Compared(events.All(), ref, snap, false);
    }
  }

  ghost predicate IsKind(events: set<Event>, rank: nat, d: Diff, ref: Snapshot, snap: Snapshot) {
    forall e :: e in events <==> Reported(e, d, ref, snap) && Rank(e) == rank
  }

  /** The eight lists are the eight kinds. */
  lemma {:induction false} KindSets(diff: DirectorySnapshotDiff, ref: Snapshot, snap: Snapshot)
    requires diff.Sorted(ref, snap)
    ensures IsKind(set p | p in diff.filesDeleted :: Deleted(p, false), 0, diff.All(), ref, snap)
    ensures IsKind(set p | p in diff.filesModified :: Modified(p, false), 1, diff.All(), ref, snap)
    ensures IsKind(set p | p in diff.filesCreated :: Created(p, false), 2, diff.All(), ref, snap)
    ensures IsKind(set m | m in diff.filesMoved :: Moved(m.0, m.1, false), 3, diff.All(), ref, snap)
    ensures IsKind(set p | p in diff.dirsDeleted :: Deleted(p, true), 4, diff.All(), ref, snap)
    ensures IsKind(set p | p in diff.dirsModified :: Modified(p, true), 5, diff.All(), ref, snap)
    ensures IsKind(set p | p in diff.dirsCreated :: Created(p, true), 6, diff.All(), ref, snap)
    ensures IsKind(set m | m in diff.dirsMoved :: Moved(m.0, m.1, true), 7, diff.All(), ref, snap)
  {
    forall m: (string, string) ensures m == (m.0, m.1) {}
  }

  /** A batch reports the difference of two snapshots. */
  ghost predicate Step(ref: Snapshot, snap: Snapshot, batch: seq<Event>) {
    exists d :: Compared(d, ref, snap, false) && Reports(batch, d, ref, snap)
  }

  // ----- whole runs -----

  /** Each batch reports the difference of a snapshot and the next. */
  ghost predicate IsRun(snaps: seq<Snapshot>, batches: seq<seq<Event>>) {
    |snaps| == |batches| + 1 && forall i :: 0 <= i < |batches| ==> Step(snaps[i], snaps[i + 1], batches[i])
  }

  /** The changes a batch tells of. */
  function Told(batch: seq<Event>): Diff {
    Diff(
      (set e | e in batch && e.Created? :: e.path),
      (set e | e in batch && e.Deleted? :: e.path),
      (set e | e in batch && e.Moved? :: (e.path, e.to)),
      (set e | e in batch && e.Modified? :: e.path)
    )
  }

  lemma {:induction false} ToldCreated(batch: seq<Event>, d: Diff, ref: Snapshot, snap: Snapshot)
    requires Reports(batch, d, ref, snap) && d.created <= snap.Paths()
    ensures Told(batch).created == d.created
  {
    forall p | p in d.created ensures p in Told(batch).created {
      assert Reported(Created(p, snap.stats[p].directory), d, ref, snap);
      assert Created(p, snap.stats[p].directory) in batch;
    }
    forall p | p in Told(batch).created ensures p in d.created {
      var e :| e in batch && e.Created? && e.path == p;
      assert Reported(e, d, ref, snap);
    }
  }

  lemma {:induction false} ToldDeleted(batch: seq<Event>, d: Diff, ref: Snapshot, snap: Snapshot)
    requires Reports(batch, d, ref, snap) && d.deleted <= ref.Paths()
    ensures Told(batch).deleted == d.deleted
  {
    forall p | p in d.deleted ensures p in Told(batch).deleted {
      assert Reported(Deleted(p, ref.stats[p].directory), d, ref, snap);
      assert Deleted(p, ref.stats[p].directory) in batch;
    }
    forall p | p in Told(batch).deleted ensures p in d.deleted {
      var e :| e in batch && e.Deleted? && e.path == p;
      assert Reported(e, d, ref, snap);
    }
  }

  lemma {:induction false} ToldModified(batch: seq<Event>, d: Diff, ref: Snapshot, snap: Snapshot)
    requires Reports(batch, d, ref, snap) && d.modified <= ref.Paths()
    ensures Told(batch).modified == d.modified
  {
    forall p | p in d.modified ensures p in Told(batch).modified {
      assert Reported(Modified(p, ref.stats[p].directory), d, ref, snap);
      assert Modified(p, ref.stats[p].directory) in batch;
    }
    forall p | p in Told(batch).modified ensures p in d.modified {
      var e :| e in batch && e.Modified? && e.path == p;
      assert Reported(e, d, ref, snap);
    }
  }

  lemma {:induction false} ToldMoved(batch: seq<Event>, d: Diff, ref: Snapshot, snap: Snapshot)
    requires Reports(batch, d, ref, snap) && forall m :: m in d.moved ==> m.0 in ref.stats
    ensures Told(batch).moved == d.moved
  {
    forall m | m in d.moved ensures m in Told(batch).moved {
      assert Reported(Moved(m.0, m.1, ref.stats[m.0].directory), d, ref, snap);
      assert Moved(m.0, m.1, ref.stats[m.0].directory) in batch;
    }
    forall m | m in Told(batch).moved ensures m in d.moved {
      var e :| e in batch && e.Moved? && (e.path, e.to) == m;
      assert Reported(e, d, ref, snap);
    }
  }

  lemma {:induction false} ToldIsDiff(batch: seq<Event>, d: Diff, ref: Snapshot, snap: Snapshot)
    requires ref.Valid() && snap.Valid() && Compared(d, ref, snap, false) && Reports(batch, d, ref, snap)
    ensures Told(batch) == d
  {
    ComparedPaths(d, ref, snap, false);
    ToldCreated(batch, d, ref, snap);
    ToldDeleted(batch, d, ref, snap);
    ToldModified(batch, d, ref, snap);
    ToldMoved(batch, d, ref, snap);
  }

  /** Tables got by replaying each batch on the table before it. */
  ghost predicate ReplaysRun(tables: seq<Table>, snaps: seq<Snapshot>, batches: seq<seq<Event>>) {
    |tables| == |snaps| == |batches| + 1 && tables[0] == TableOf(snaps[0]) &&
    forall i :: 0 <= i < |batches| ==> Replays(tables[i], Told(batches[i]), TableOf(snaps[i + 1]), tables[i + 1])
  }

  /** Replaying every batch of a polling run rebuilds each snapshot in turn, down to the latest. */
  lemma {:induction false} RunRebuilds(tables: seq<Table>, snaps: seq<Snapshot>, batches: seq<seq<Event>>, n: nat)
    requires IsRun(snaps, batches) && (forall i :: 0 <= i < |snaps| ==> Named(snaps[i]))
    requires ReplaysRun(tables, snaps, batches) && n < |snaps|
    ensures tables[n] == TableOf(snaps[n])
  {
    if n > 0 {
      RunRebuilds(tables, snaps, batches, n - 1);
      var ref, snap := snaps[n - 1], snaps[n];
      assert Step(ref, snap, batches[n - 1]);
      var d :| Compared(d, ref, snap, false) && Reports(batches[n - 1], d, ref, snap);
      ToldIsDiff(batches[n - 1], d, ref, snap);
      DiffReplays(d, ref, snap);
      assert Replays(tables[n - 1], Told(batches[n - 1]), TableOf(snap), tables[n]);
      ReplayDetermined(TableOf(ref), d, TableOf(snap), tables[n], TableOf(snap));
    }
  }

  /** The paths after a batch, from the events alone. */
  function PathsAfter(paths: set<string>, batch: seq<Event>): set<string> {
    var d := Told(batch);
    paths - d.deleted - (set m | m in d.moved :: m.0) + d.created + (set m | m in d.moved :: m.1)
  }

  function PathsAfterAll(paths: set<string>, batches: seq<seq<Event>>): set<string>
    decreases |batches|
  {
    if batches == [] then paths
    else PathsAfter(PathsAfterAll(paths, batches[..|batches| - 1]), batches[|batches| - 1])
  }

  /** Whoever follows the events knows at any time which paths the last snapshot had. */
  lemma {:induction false} EventsTellPaths(snaps: seq<Snapshot>, batches: seq<seq<Event>>)
    requires IsRun(snaps, batches) && forall i :: 0 <= i < |snaps| ==> Named(snaps[i])
    ensures PathsAfterAll(snaps[0].Paths(), batches) == snaps[|batches|].Paths()
    decreases |batches|
  {
    if batches != [] {
      var n := |batches| - 1;
      EventsTellPaths(snaps[..n + 1], batches[..n]);
      var ref, snap := snaps[n], snaps[n + 1];
      assert Step(ref, snap, batches[n]);
      var d :| Compared(d, ref, snap, false) && Reports(batches[n], d, ref, snap);
      ToldIsDiff(batches[n], d, ref, snap);
      forall p ensures p in PathsAfter(ref.Paths(), batches[n]) <==> p in snap.Paths() {
        ReplayPaths(d, ref, snap, p);
        SourcesAndDests(d, p);
      }
    }
  }

  lemma {:induction false} SourcesAndDests(d: Diff, p: string)
    ensures IsSource(d, p) <==> p in set m | m in d.moved :: m.0
    ensures IsDest(d, p) <==> p in set m | m in d.moved :: m.1
  {
    if to :| (p, to) in d.moved { assert (p, to).0 == p; }
    if from :| (from, p) in d.moved { assert (from, p).1 == p; }
    if m :| m in d.moved && m.0 == p { assert m == (p, m.1); }
    if m :| m in d.moved && m.1 == p { assert m == (m.0, p); }
  }
}
