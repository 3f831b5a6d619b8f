/**
 Walking a directory tree: the entries of a directory first, then its subdirectories one by
 one.  What listing and `stat` answer is a tree; whatever can fail may fail anywhere in it.
 */
module SnapshotWalk {
  import opened Common
  import opened Texts
  import opened Snapshots

  /** The answer to listing a directory: gone or not a directory, no permission, another error, or the entries. */
  datatype Listing = Gone | Denied | Broken | Listed(items: seq<Item>)

  /** An entry, what `stat` says of it if it can, and what listing it would answer. */
  datatype Item = Item(name: string, st: Option<Stat>, below: Listing)

  datatype Outcome = Complete | PermissionError | OtherError

  datatype Walked = Walked(entries: Entries, outcome: Outcome)

  /** What every path in a directory begins with. */
  function Base(root: string): string {
    if root == "" || root[|root| - 1] == SEP then root else root + [SEP]
  }

  /** The entries of one directory that can be looked at. */
  function Level(root: string, items: seq<Item>): Entries {
    if items == [] then []
    else
      (if items[0].st.Some? then [(PathJoin(root, items[0].name), items[0].st.value)] else []) + Level(root, items[1..])
  }

  function WalkOf(root: string, listing: Listing, recursive: bool): Walked
    decreases listing, 1
  {
    match listing
    case Gone => Walked([], Complete)
    case Denied => Walked([], PermissionError)
    case Broken => Walked([], OtherError)
    case Listed(items) =>
      if !recursive then Walked(Level(root, items), Complete)
      else
        var below := BelowOf(root, items);
        Walked(Level(root, items) + below.entries, below.outcome)
  }

  /** The subdirectories; one that may not be listed is passed over, any other error ends the walk. */
  function BelowOf(root: string, items: seq<Item>): Walked
    decreases items, 0
  {
    if items == [] then Walked([], Complete)
    else if items[0].st.Some? && items[0].st.value.directory then
      var w := WalkOf(PathJoin(root, items[0].name), items[0].below, true);
      if w.outcome == OtherError then w
      else
        var rest := BelowOf(root, items[1..]);
        Walked(w.entries + rest.entries, rest.outcome)
    else BelowOf(root, items[1..])
  }

  method Walk(root: string, listing: Listing, recursive: bool) returns (entries: Entries, outcome: Outcome)
    ensures Walked(entries, outcome) == WalkOf(root, listing, recursive)
    decreases listing, 1
  {
    match listing
    case Gone => return [], Complete;
    case Denied => return [], PermissionError;
    case Broken => return [], OtherError;
    case Listed(items) =>
      entries := WalkLevel(root, items);
      outcome := Complete;
      if recursive {
        var below;
        below, outcome := WalkBelow(root, items);
        entries := entries + below;
      }
  }

  method WalkLevel(root: string, items: seq<Item>) returns (entries: Entries)
    ensures entries == Level(root, items)
  {
    entries := [];
    for i := 0 to |items|
      invariant entries + Level(root, items[i..]) == Level(root, items)
    {
      assert items[i..][1..] == items[i + 1..];
      if items[i].st.Some? {
        entries := entries + [(PathJoin(root, items[i].name), items[i].st.value)];
      }
    }
    assert items[|items|..] == [];
  }

  method WalkBelow(root: string, items: seq<Item>) returns (entries: Entries, outcome: Outcome)
    ensures Walked(entries, outcome) == BelowOf(root, items)
    decreases items, 0
  {
    entries := [];
    ghost var all := BelowOf(root, items);
    for i := 0 to |items|
      invariant entries + BelowOf(root, items[i..]).entries == all.entries
      invariant BelowOf(root, items[i..]).outcome == all.outcome
    {
      assert items[i..][1..] == items[i + 1..] && items[i..][0] == items[i];
      var item := items[i];
      if item.st.Some? && item.st.value.directory {
        var more, o := Walk(PathJoin(root, item.name), item.below, true);
        Associative(entries, more, BelowOf(root, items[i + 1..]).entries);
        entries := entries + more;
        if o == OtherError { return entries, o; }
      }
    }
    assert items[|items|..] == [];
    return entries, Complete;
  }

  // ----- every path once -----

  /** Directory listings hold different names, which are not empty and hold no separator. */
  predicate Proper(listing: Listing)
    decreases listing, 1
  {
    listing.Listed? ==> ProperItems(listing.items)
  }

  predicate ProperItems(items: seq<Item>)
    decreases items, 0
  {
    items != [] ==>
      && items[0].name != "" && SEP !in items[0].name && Proper(items[0].below) && ProperItems(items[1..])
      && forall i :: 1 <= i < |items| ==> items[i].name != items[0].name
  }

  /** The path is the entry of that name, or below it. */
  predicate At(root: string, name: string, path: string) {
    var p := PathJoin(root, name);
    |path| >= |p| && path[..|p|] == p && (|path| > |p| ==> path[|p|] == SEP)
  }

  predicate Below(root: string, path: string) {
    |path| > |Base(root)| && path[..|Base(root)|] == Base(root)
  }

  lemma JoinedPath(root: string, name: string)
    requires SEP !in name
    ensures PathJoin(root, name) == Base(root) + name
  {
  }

  /** Different names lead to different paths. */
  lemma {:induction false} NamesApart(root: string, m: string, n: string, path: string)
    requires SEP !in m && SEP !in n && At(root, m, path) && At(root, n, path)
    ensures m == n
  {
    var b := |Base(root)|;
    JoinedPath(root, m);
    JoinedPath(root, n);
    assert PathJoin(root, m)[b..] == m && PathJoin(root, n)[b..] == n;
    assert path[b..b + |m|] == path[..b + |m|][b..] == m;
    assert path[b..b + |n|] == path[..b + |n|][b..] == n;
    assert forall k :: 0 <= k < |m| ==> m[k] == path[b + k];
    assert forall k :: 0 <= k < |n| ==> n[k] == path[b + k];
    assert |m| == |n|;
  }

  /** What is below the path of a name is at the name, and is not that path. */
  lemma {:induction false} BelowIsAt(root: string, name: string, path: string)
    requires name != "" && SEP !in name && Below(PathJoin(root, name), path)
    ensures At(root, name, path) && path != PathJoin(root, name)
  {
    var p := PathJoin(root, name);
    JoinedPath(root, name);
    assert p[|p| - 1] == name[|name| - 1];
    assert Base(p) == p + [SEP];
    assert path[..|p|] == path[..|p| + 1][..|p|] && path[|p|] == path[..|p| + 1][|p|];
  }

  ghost predicate AtSome(root: string, items: seq<Item>, path: string) {
    exists i :: 0 <= i < |items| && At(root, items[i].name, path)
  }

  lemma {:induction false} AtSomeTail(root: string, items: seq<Item>, path: string)
    requires items != [] && AtSome(root, items[1..], path)
    ensures AtSome(root, items, path)
  {
    var i :| 0 <= i < |items[1..]| && At(root, items[1..][i].name, path);
    assert items[i + 1] == items[1..][i];
  }

  lemma {:induction false} AtSomeIsBelow(root: string, items: seq<Item>, path: string)
    requires ProperItems(items) && AtSome(root, items, path)
    ensures Below(root, path)
    decreases |items|
  {
    var i :| 0 <= i < |items| && At(root, items[i].name, path);
    if i == 0 {
      var p := PathJoin(root, items[0].name);
      JoinedPath(root, items[0].name);
      assert path[..|Base(root)|] == path[..|p|][..|Base(root)|];
    } else {
      assert items[1..][i - 1] == items[i];
      AtSomeIsBelow(root, items[1..], path);
    }
  }

  lemma {:induction false} HeadApart(root: string, items: seq<Item>, path: string)
    requires ProperItems(items) && items != [] && At(root, items[0].name, path)
    ensures !AtSome(root, items[1..], path)
  {
    forall i | 0 <= i < |items[1..]| ensures !At(root, items[1..][i].name, path) {
      ProperAt(items, i + 1);
      if At(root, items[i + 1].name, path) {
        NamesApart(root, items[0].name, items[i + 1].name, path);
      }
    }
  }

  lemma {:induction false} ProperAt(items: seq<Item>, i: nat)
    requires ProperItems(items) && i < |items|
    ensures items[i].name != "" && SEP !in items[i].name
    ensures i > 0 ==> items[i].name != items[0].name
    decreases |items|
  {
    if i > 0 { ProperAt(items[1..], i - 1); }
  }

  /** The path of one of the entries. */
  ghost predicate EntrySome(root: string, items: seq<Item>, path: string) {
    exists i :: 0 <= i < |items| && path == PathJoin(root, items[i].name)
  }

  /** A path below one of the entries. */
  ghost predicate InsideSome(root: string, items: seq<Item>, path: string) {
    AtSome(root, items, path) && !EntrySome(root, items, path)
  }

  lemma {:induction false} EntryIsAt(root: string, items: seq<Item>, path: string)
    requires EntrySome(root, items, path)
    ensures AtSome(root, items, path)
  {
    var i :| 0 <= i < |items| && path == PathJoin(root, items[i].name);
    assert At(root, items[i].name, path);
  }

  lemma {:induction false} EntryTail(root: string, items: seq<Item>, path: string)
    requires items != []
    ensures EntrySome(root, items, path) <==> path == PathJoin(root, items[0].name) || EntrySome(root, items[1..], path)
  {
    if i :| 0 <= i < |items[1..]| && path == PathJoin(root, items[1..][i].name) {
      assert items[i + 1] == items[1..][i];
    }
    if i :| 0 <= i < |items| && path == PathJoin(root, items[i].name) {
      assert i > 0 ==> items[1..][i - 1] == items[i];
    }
  }

  /** Inside the first entry, or inside a later one. */
  lemma {:induction false} InsideStep(root: string, items: seq<Item>, path: string)
    requires ProperItems(items) && items != []
    requires Below(PathJoin(root, items[0].name), path) || InsideSome(root, items[1..], path)
    ensures InsideSome(root, items, path)
  {
    EntryTail(root, items, path);
    var name := items[0].name;
    if Below(PathJoin(root, name), path) {
      BelowIsAt(root, name, path);
      HeadApart(root, items, path);
      if EntrySome(root, items[1..], path) { EntryIsAt(root, items[1..], path); }
    } else {
      AtSomeTail(root, items, path);
      FirstNotInTail(root, items, path);
    }
  }

  lemma {:induction false} FirstNotInTail(root: string, items: seq<Item>, path: string)
    requires ProperItems(items) && items != [] && AtSome(root, items[1..], path)
    ensures !At(root, items[0].name, path) && path != PathJoin(root, items[0].name)
  {
    if At(root, items[0].name, path) { HeadApart(root, items, path); }
  }

  lemma {:induction false} DistinctConcat(a: Entries, b: Entries)
    requires DistinctPaths(a) && DistinctPaths(b)
    requires forall i, j :: 0 <= i < |a| && 0 <= j < |b| ==> a[i].0 != b[j].0
    ensures DistinctPaths(a + b)
  {
  }

  lemma {:induction false} LevelOnce(root: string, items: seq<Item>)
    requires ProperItems(items)
    ensures DistinctPaths(Level(root, items))
    ensures forall i :: 0 <= i < |Level(root, items)| ==> EntrySome(root, items, Level(root, items)[i].0)
    decreases |items|
  {
    if items != [] {
      var rest := Level(root, items[1..]);
      LevelOnce(root, items[1..]);
      forall i | 0 <= i < |rest|
        ensures EntrySome(root, items, rest[i].0) && rest[i].0 != PathJoin(root, items[0].name)
      {
        EntryTail(root, items, rest[i].0);
        EntryIsAt(root, items[1..], rest[i].0);
        FirstNotInTail(root, items, rest[i].0);
      }
      EntryTail(root, items, PathJoin(root, items[0].name));
    }
  }

  lemma {:induction false} BelowOnce(root: string, items: seq<Item>)
    requires ProperItems(items)
    ensures DistinctPaths(BelowOf(root, items).entries)
    ensures forall i :: 0 <= i < |BelowOf(root, items).entries| ==> InsideSome(root, items, BelowOf(root, items).entries[i].0)
    decreases items, 0
  {
    if items != [] {
      var p := PathJoin(root, items[0].name);
      var w, rest := WalkOf(p, items[0].below, true).entries, BelowOf(root, items[1..]).entries;
      BelowOnce(root, items[1..]);
      WalkOnce(p, items[0].below, true);
      forall i | 0 <= i < |rest| ensures InsideSome(root, items, rest[i].0) && !At(root, items[0].name, rest[i].0) {
        InsideStep(root, items, rest[i].0);
        FirstNotInTail(root, items, rest[i].0);
      }
      forall i | 0 <= i < |w| ensures InsideSome(root, items, w[i].0) && At(root, items[0].name, w[i].0) {
        InsideStep(root, items, w[i].0);
        BelowIsAt(root, items[0].name, w[i].0);
      }
      DistinctConcat(w, rest);
    }
  }

  lemma {:induction false} WalkOnce(root: string, listing: Listing, recursive: bool)
    requires Proper(listing)
    ensures DistinctPaths(WalkOf(root, listing, recursive).entries)
    ensures forall i :: 0 <= i < |WalkOf(root, listing, recursive).entries| ==>
      Below(root, WalkOf(root, listing, recursive).entries[i].0)
    decreases listing, 1
  {
    if listing.Listed? {
      var items := listing.items;
      var level, below := Level(root, items), BelowOf(root, items).entries;
      LevelOnce(root, items);
      BelowOnce(root, items);
      forall i | 0 <= i < |level| ensures Below(root, level[i].0) {
        EntryIsAt(root, items, level[i].0);
        AtSomeIsBelow(root, items, level[i].0);
      }
      forall i | 0 <= i < |below| ensures Below(root, below[i].0) {
        AtSomeIsBelow(root, items, below[i].0);
      }
      DistinctConcat(level, below);
    }
  }

  /**
   A walk of any tree meets every path once, however it ends; so the snapshot taken of it is
   faithful exactly when no two of the files met share an inode.
   */
  lemma {:induction false} TreeFaithfulIff(root: string, st: Stat, listing: Listing, recursive: bool)
    requires Proper(listing)
    ensures var entries := [(root, st)] + WalkOf(root, listing, recursive).entries;
      DistinctPaths(entries) && (Taken(entries).Faithful() <==> DistinctInodes(entries))
  {
    var walked := WalkOf(root, listing, recursive).entries;
    WalkOnce(root, listing, recursive);
    forall i | 0 <= i < |walked| ensures walked[i].0 != root {
      assert Below(root, walked[i].0);
    }
    DistinctConcat([(root, st)], walked);
    FaithfulIff([(root, st)] + walked);
  }
}
