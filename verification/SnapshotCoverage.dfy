/**
 Which entries a walk meets: all that a chain of directories leads to, up to the first directory
 in the order of the walk whose listing fails with an error that is not passed over.
 */
module SnapshotCoverage {
  import opened Common
  import opened Texts
  import opened Snapshots
  import opened SnapshotWalk

  /** The entry could be looked at and is a directory. */
  predicate IsDirectory(item: Item) {
    item.st.Some? && item.st.value.directory
  }

  /**
   The directories in `chain`, each given by its position in the listing of the one before, lead
   to the entry at position `i`, which has this path and this `stat`.
   */
  predicate Leads(root: string, listing: Listing, chain: seq<nat>, i: nat, path: string, st: Stat)
    decreases |chain|
  {
    listing.Listed? &&
    if chain == [] then
      i < |listing.items| && listing.items[i].st == Some(st) && path == PathJoin(root, listing.items[i].name)
    else
      && chain[0] < |listing.items| && IsDirectory(listing.items[chain[0]])
      && Leads(PathJoin(root, listing.items[chain[0]].name), listing.items[chain[0]].below, chain[1..], i, path, st)
  }

  /** The same, for use under quantifiers. */
  predicate LeadsTo(root: string, listing: Listing, chain: seq<nat>, i: nat, path: string, st: Stat) {
    Leads(root, listing, chain, i, path, st)
  }

  /** Listing the directory that `chain` leads to fails for good. */
  predicate BrokenAt(listing: Listing, chain: seq<nat>)
    decreases |chain|
  {
    if chain == [] then listing.Broken?
    else
      && listing.Listed? && chain[0] < |listing.items| && IsDirectory(listing.items[chain[0]])
      && BrokenAt(listing.items[chain[0]].below, chain[1..])
  }

  /** One directory is listed before another, or is the same: a directory comes before those in it. */
  predicate ListedFirst(a: seq<nat>, b: seq<nat>)
    decreases |a|
  {
    a == [] || (b != [] && (a[0] < b[0] || (a[0] == b[0] && ListedFirst(a[1..], b[1..]))))
  }

  /** The walk ends before it has listed the directory. */
  ghost predicate Cut(listing: Listing, chain: seq<nat>) {
    exists b: seq<nat> :: BrokenAt(listing, b) && ListedFirst(b, chain)
  }

  ghost predicate SomeBroken(listing: Listing) {
    exists b: seq<nat> :: BrokenAt(listing, b)
  }

  ghost predicate Met(root: string, listing: Listing, path: string, st: Stat) {
    exists chain: seq<nat>, i: nat :: LeadsTo(root, listing, chain, i, path, st) && !Cut(listing, chain)
  }

  /** Met below the first level. */
  ghost predicate MetBelow(root: string, items: seq<Item>, path: string, st: Stat) {
    exists chain: seq<nat>, i: nat :: chain != [] && LeadsTo(root, Listed(items), chain, i, path, st) && !Cut(Listed(items), chain)
  }

  function Later(chain: seq<nat>): seq<nat>
    requires chain != []
  {
    [chain[0] + 1] + chain[1..]
  }

  function Sooner(chain: seq<nat>): (r: seq<nat>)
    requires chain != [] && chain[0] > 0
    ensures r != [] && Later(r) == chain
  {
    [chain[0] - 1] + chain[1..]
  }

  // ----- the first entry, and the others -----

  lemma {:induction false} HeadLeads(root: string, items: seq<Item>, chain: seq<nat>, i: nat, path: string, st: Stat)
    requires items != []
    ensures LeadsTo(root, Listed(items), [0] + chain, i, path, st)
      <==> IsDirectory(items[0]) && LeadsTo(PathJoin(root, items[0].name), items[0].below, chain, i, path, st)
  {
    assert ([0] + chain)[1..] == chain;
  }

  lemma {:induction false} TailLeads(root: string, items: seq<Item>, chain: seq<nat>, i: nat, path: string, st: Stat)
    requires items != [] && chain != []
    ensures LeadsTo(root, Listed(items), Later(chain), i, path, st) <==> LeadsTo(root, Listed(items[1..]), chain, i, path, st)
  {
    assert Later(chain)[1..] == chain[1..];
  }

  lemma {:induction false} HeadBroken(items: seq<Item>, chain: seq<nat>)
    requires items != []
    ensures BrokenAt(Listed(items), [0] + chain) <==> IsDirectory(items[0]) && BrokenAt(items[0].below, chain)
  {
    assert ([0] + chain)[1..] == chain;
  }

  lemma {:induction false} TailBroken(items: seq<Item>, chain: seq<nat>)
    requires items != [] && chain != []
    ensures BrokenAt(Listed(items), Later(chain)) <==> BrokenAt(Listed(items[1..]), chain)
  {
    assert Later(chain)[1..] == chain[1..];
  }

  lemma {:induction false} HeadFirst(a: seq<nat>, b: seq<nat>)
    ensures ListedFirst([0] + a, [0] + b) <==> ListedFirst(a, b)
    ensures b != [] ==> ListedFirst([0] + a, Later(b))
  {
    assert ([0] + a)[1..] == a && ([0] + b)[1..] == b;
  }

  lemma {:induction false} TailFirst(a: seq<nat>, b: seq<nat>)
    requires a != [] && b != []
    ensures ListedFirst(Later(a), Later(b)) <==> ListedFirst(a, b)
    ensures !ListedFirst(Later(a), [0] + b[1..])
  {
    assert Later(a)[1..] == a[1..] && Later(b)[1..] == b[1..];
  }

  lemma {:induction false} HeadCut(items: seq<Item>, chain: seq<nat>)
    requires items != [] && IsDirectory(items[0])
    ensures Cut(Listed(items), [0] + chain) <==> Cut(items[0].below, chain)
  {
    if b: seq<nat> :| BrokenAt(Listed(items), b) && ListedFirst(b, [0] + chain) {
      assert b != [] && b[0] == 0;
      assert b == [0] + b[1..];
      HeadBroken(items, b[1..]);
      HeadFirst(b[1..], chain);
    }
    if b: seq<nat> :| BrokenAt(items[0].below, b) && ListedFirst(b, chain) {
      HeadBroken(items, b);
      HeadFirst(b, chain);
    }
  }

  lemma {:induction false} TailCut(items: seq<Item>, chain: seq<nat>)
    requires items != [] && chain != []
    ensures Cut(Listed(items), Later(chain))
      <==> (IsDirectory(items[0]) && SomeBroken(items[0].below)) || Cut(Listed(items[1..]), chain)
  {
    if b: seq<nat> :| BrokenAt(Listed(items), b) && ListedFirst(b, Later(chain)) {
      assert b != [];
      if b[0] == 0 {
        assert b == [0] + b[1..];
        HeadBroken(items, b[1..]);
      } else {
        TailBroken(items, Sooner(b));
        TailFirst(Sooner(b), chain);
      }
    }
    if IsDirectory(items[0]) && SomeBroken(items[0].below) {
      var b: seq<nat> :| BrokenAt(items[0].below, b);
      HeadBroken(items, b);
      HeadFirst(b, chain);
    }
    if b: seq<nat> :| BrokenAt(Listed(items[1..]), b) && ListedFirst(b, chain) {
      assert b != [];
      TailBroken(items, b);
      TailFirst(b, chain);
    }
  }

  lemma {:induction false} SomeBrokenStep(items: seq<Item>)
    requires items != []
    ensures SomeBroken(Listed(items)) <==> (IsDirectory(items[0]) && SomeBroken(items[0].below)) || SomeBroken(Listed(items[1..]))
  {
    if b: seq<nat> :| BrokenAt(Listed(items), b) {
      assert b != [];
      if b[0] == 0 {
        assert b == [0] + b[1..];
        HeadBroken(items, b[1..]);
      } else {
        TailBroken(items, Sooner(b));
      }
    }
    if IsDirectory(items[0]) && SomeBroken(items[0].below) {
      var b: seq<nat> :| BrokenAt(items[0].below, b);
      HeadBroken(items, b);
    }
    if b: seq<nat> :| BrokenAt(Listed(items[1..]), b) {
      assert b != [];
      TailBroken(items, b);
    }
  }

  /** Met below the first level: under the first entry, or under a later one unless the first ended the walk. */
  lemma {:induction false} MetBelowStep(root: string, items: seq<Item>, path: string, st: Stat)
    requires items != []
    ensures MetBelow(root, items, path, st) <==>
      || (IsDirectory(items[0]) && Met(PathJoin(root, items[0].name), items[0].below, path, st))
      || (!(IsDirectory(items[0]) && SomeBroken(items[0].below)) && MetBelow(root, items[1..], path, st))
  {
    if MetBelow(root, items, path, st) {
      var chain: seq<nat>, i: nat :| chain != [] && LeadsTo(root, Listed(items), chain, i, path, st) && !Cut(Listed(items), chain);
      if chain[0] == 0 {
        assert chain == [0] + chain[1..];
        HeadLeads(root, items, chain[1..], i, path, st);
        HeadCut(items, chain[1..]);
      } else {
        TailLeads(root, items, Sooner(chain), i, path, st);
        TailCut(items, Sooner(chain));
      }
    }
    if IsDirectory(items[0]) && Met(PathJoin(root, items[0].name), items[0].below, path, st) {
      MetUnderFirst(root, items, path, st);
    }
    if !(IsDirectory(items[0]) && SomeBroken(items[0].below)) && MetBelow(root, items[1..], path, st) {
      MetUnderOthers(root, items, path, st);
    }
  }

  lemma {:induction false} MetUnderFirst(root: string, items: seq<Item>, path: string, st: Stat)
    requires items != [] && IsDirectory(items[0]) && Met(PathJoin(root, items[0].name), items[0].below, path, st)
    ensures MetBelow(root, items, path, st)
  {
    var chain: seq<nat>, i: nat :| LeadsTo(PathJoin(root, items[0].name), items[0].below, chain, i, path, st) && !Cut(items[0].below, chain);
    HeadLeads(root, items, chain, i, path, st);
    HeadCut(items, chain);
  }

  lemma {:induction false} MetUnderOthers(root: string, items: seq<Item>, path: string, st: Stat)
    requires items != [] && !(IsDirectory(items[0]) && SomeBroken(items[0].below)) && MetBelow(root, items[1..], path, st)
    ensures MetBelow(root, items, path, st)
  {
    var chain: seq<nat>, i: nat :| chain != [] && LeadsTo(root, Listed(items[1..]), chain, i, path, st) && !Cut(Listed(items[1..]), chain);
    TailLeads(root, items, chain, i, path, st);
    TailCut(items, chain);
  }

  // ----- the walk -----

  /** The walk ends with an error exactly if some directory it can come to breaks it. */
  lemma {:induction false} WalkFailsIff(root: string, listing: Listing)
    ensures WalkOf(root, listing, true).outcome == OtherError <==> SomeBroken(listing)
    ensures WalkOf(root, listing, true).outcome == PermissionError <==> listing.Denied?
    decreases listing, 1
  {
    if listing.Listed? {
      BelowFailsIff(root, listing.items);
    } else if listing.Broken? {
      assert BrokenAt(listing, []);
    }
  }

  lemma {:induction false} BelowFailsIff(root: string, items: seq<Item>)
    ensures BelowOf(root, items).outcome == OtherError <==> SomeBroken(Listed(items))
    ensures BelowOf(root, items).outcome != PermissionError
    decreases items, 0
  {
    if items != [] {
      SomeBrokenStep(items);
      BelowFailsIff(root, items[1..]);
      if IsDirectory(items[0]) { WalkFailsIff(PathJoin(root, items[0].name), items[0].below); }
    }
  }

  lemma {:induction false} LevelCovers(root: string, items: seq<Item>, path: string, st: Stat)
    ensures (path, st) in Level(root, items) <==> exists i: nat :: LeadsTo(root, Listed(items), [], i, path, st)
    decreases |items|
  {
    if items != [] {
      LevelCovers(root, items[1..], path, st);
      if i: nat :| LeadsTo(root, Listed(items[1..]), [], i, path, st) {
        assert LeadsTo(root, Listed(items), [], i + 1, path, st);
      }
      if i: nat :| LeadsTo(root, Listed(items), [], i, path, st) {
        if i > 0 {
          assert LeadsTo(root, Listed(items[1..]), [], i - 1, path, st);
        } else {
          assert Level(root, items)[0] == (path, st);
        }
      }
      var first: Entries := if items[0].st.Some? then [(PathJoin(root, items[0].name), items[0].st.value)] else [];
      assert Level(root, items) == first + Level(root, items[1..]);
      if (path, st) in first {
        assert LeadsTo(root, Listed(items), [], 0, path, st);
      }
    }
  }

  lemma {:induction false} BelowCovers(root: string, items: seq<Item>, path: string, st: Stat)
    ensures (path, st) in BelowOf(root, items).entries <==> MetBelow(root, items, path, st)
    decreases items, 0
  {
    if items != [] {
      MetBelowStep(root, items, path, st);
      BelowCovers(root, items[1..], path, st);
      if IsDirectory(items[0]) {
        var p := PathJoin(root, items[0].name);
        WalkFailsIff(p, items[0].below);
        WalkCovers(p, items[0].below, path, st);
      }
    }
  }

  lemma {:induction false} MetSomewhere(root: string, items: seq<Item>, path: string, st: Stat)
    ensures Met(root, Listed(items), path, st)
      <==> MetBelow(root, items, path, st) || exists i: nat :: LeadsTo(root, Listed(items), [], i, path, st)
  {
    if chain: seq<nat>, i: nat :| LeadsTo(root, Listed(items), chain, i, path, st) && !Cut(Listed(items), chain) {
      if chain == [] { assert LeadsTo(root, Listed(items), [], i, path, st); }
    }
    if i: nat :| LeadsTo(root, Listed(items), [], i, path, st) {
      var none: seq<nat> := [];
      assert LeadsTo(root, Listed(items), none, i, path, st) && !Cut(Listed(items), none);
    }
  }

  /**
   A recursive walk meets exactly the entries that directories lead to, whatever is listed first,
   but none of a directory that comes after one that breaks the walk.
   */
  lemma {:induction false} WalkCovers(root: string, listing: Listing, path: string, st: Stat)
    ensures (path, st) in WalkOf(root, listing, true).entries <==> Met(root, listing, path, st)
    decreases listing, 1
  {
    if listing.Listed? {
      var level, below := Level(root, listing.items), BelowOf(root, listing.items).entries;
      LevelCovers(root, listing.items, path, st);
      BelowCovers(root, listing.items, path, st);
      MetSomewhere(root, listing.items, path, st);
      assert WalkOf(root, listing, true).entries == level + below && listing == Listed(listing.items);
      assert (path, st) in level + below <==> (path, st) in level || (path, st) in below;
    }
  }

  /** Without an error it meets everything that directories lead to. */
  lemma {:induction false} CompleteWalkCovers(root: string, listing: Listing, path: string, st: Stat)
    requires WalkOf(root, listing, true).outcome == Complete
    ensures (path, st) in WalkOf(root, listing, true).entries
      <==> exists chain: seq<nat>, i: nat :: LeadsTo(root, listing, chain, i, path, st)
  {
    WalkFailsIff(root, listing);
    WalkCovers(root, listing, path, st);
    if Met(root, listing, path, st) {
      var chain: seq<nat>, i: nat :| LeadsTo(root, listing, chain, i, path, st) && !Cut(listing, chain);
    }
    if chain: seq<nat>, i: nat :| LeadsTo(root, listing, chain, i, path, st) {
      if b: seq<nat> :| BrokenAt(listing, b) && ListedFirst(b, chain) { assert SomeBroken(listing); }
      assert Met(root, listing, path, st);
    }
  }

  /** A walk that is not recursive meets exactly the entries of the directory itself. */
  lemma {:induction false} FlatWalkCovers(root: string, listing: Listing, path: string, st: Stat)
    ensures (path, st) in WalkOf(root, listing, false).entries <==> exists i: nat :: LeadsTo(root, listing, [], i, path, st)
    ensures WalkOf(root, listing, false).outcome == OtherError <==> listing.Broken?
    ensures WalkOf(root, listing, false).outcome == PermissionError <==> listing.Denied?
  {
    if listing.Listed? { LevelCovers(root, listing.items, path, st); }
  }

  // ----- the paths met -----

  /** The names on the way. */
  function Names(listing: Listing, chain: seq<nat>, i: nat): seq<string>
    decreases |chain|
  {
    if !listing.Listed? then []
    else if chain == [] then (if i < |listing.items| then [listing.items[i].name] else [])
    else if chain[0] < |listing.items| then [listing.items[chain[0]].name] + Names(listing.items[chain[0]].below, chain[1..], i)
    else []
  }

  /** The path met is the root's with the names on the way behind it. */
  lemma {:induction false} PathOfNames(root: string, listing: Listing, chain: seq<nat>, i: nat, path: string, st: Stat)
    requires Proper(listing) && Leads(root, listing, chain, i, path, st)
    ensures |Names(listing, chain, i)| == |chain| + 1 && path == Base(root) + Join(Names(listing, chain, i), '/')
    decreases |chain|
  {
    if chain == [] {
      ProperAt(listing.items, i);
      JoinedPath(root, listing.items[i].name);
    } else {
      var item := listing.items[chain[0]];
      var p := PathJoin(root, item.name);
      ProperAt(listing.items, chain[0]);
      ProperBelow(listing.items, chain[0]);
      PathOfNames(p, item.below, chain[1..], i, path, st);
      JoinedPath(root, item.name);
      assert p[|p| - 1] == item.name[|item.name| - 1];
      assert Base(p) == Base(root) + item.name + [SEP];
      var rest := Names(item.below, chain[1..], i);
      assert Names(listing, chain, i)[1..] == rest;
      assert Base(root) + item.name + [SEP] + Join(rest, '/') == Base(root) + (item.name + [SEP] + Join(rest, '/'));
    }
  }

  lemma {:induction false} ProperBelow(items: seq<Item>, i: nat)
    requires ProperItems(items) && i < |items|
    ensures Proper(items[i].below)
    decreases |items|
  {
    if i > 0 { ProperBelow(items[1..], i - 1); }
  }

  // ----- the snapshot of a tree -----

  lemma {:induction false} TakenHolds(entries: Entries, path: string, st: Stat)
    requires DistinctPaths(entries)
    ensures path in Taken(entries).stats && Taken(entries).stats[path] == st <==> (path, st) in entries
  {
    TakenPaths(entries, path);
    if i :| 0 <= i < |entries| && entries[i].0 == path { TakenStats(entries, i); }
    if i :| 0 <= i < |entries| && entries[i] == (path, st) { TakenStats(entries, i); }
  }

  /**
   The snapshot of a tree: the root, and every file that a chain of directories leads to, with what
   `stat` said of it, and nothing else.
   */
  lemma {:induction false} TreeSnapshotHolds(root: string, rootStat: Stat, listing: Listing, path: string, st: Stat)
    requires Proper(listing) && WalkOf(root, listing, true).outcome == Complete
    ensures var stats := Taken([(root, rootStat)] + WalkOf(root, listing, true).entries).stats;
      path in stats && stats[path] == st
      <==> (path == root && st == rootStat) || exists chain: seq<nat>, i: nat :: LeadsTo(root, listing, chain, i, path, st)
  {
    var walked := WalkOf(root, listing, true).entries;
    TreeFaithfulIff(root, rootStat, listing, true);
    TakenHolds([(root, rootStat)] + walked, path, st);
    CompleteWalkCovers(root, listing, path, st);
  }
}
