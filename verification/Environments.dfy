/**
 `Environment`: for every project the distributions found, newest first.
 */
module Environments {
  import opened Common
  import opened Packages

  predicate NewestFirst(ds: seq<Distribution>) {
    forall i, j :: 0 <= i < j < |ds| ==> ds[i].hashcmp > ds[j].hashcmp
  }

  /** `dist in dists`: equality of distributions compares their order keys. */
  predicate Listed(ds: seq<Distribution>, d: Distribution) {
    exists i :: 0 <= i < |ds| && ds[i].hashcmp == d.hashcmp
  }

  /** A distribution put in front of the first one that is not newer. */
  function InsertSorted(ds: seq<Distribution>, d: Distribution): seq<Distribution> {
    if ds == [] || ds[0].hashcmp < d.hashcmp then [d] + ds else [ds[0]] + InsertSorted(ds[1..], d)
  }

  /** A stable sort by order key, newest first. */
  function SortNewestFirst(ds: seq<Distribution>): seq<Distribution> {
    if ds == [] then [] else InsertSorted(SortNewestFirst(ds[..|ds| - 1]), ds[|ds| - 1])
  }

  lemma {:induction false} InsertIsSorted(ds: seq<Distribution>, d: Distribution)
    requires NewestFirst(ds) && !Listed(ds, d)
    ensures NewestFirst(InsertSorted(ds, d))
    ensures forall x :: x in InsertSorted(ds, d) <==> x in ds || x == d
    decreases |ds|
  {
    if ds == [] || ds[0].hashcmp < d.hashcmp {
    } else {
      assert !Listed(ds[1..], d) by {
        assert forall i :: 0 <= i < |ds| - 1 ==> ds[1..][i] == ds[i + 1];
      }
      InsertIsSorted(ds[1..], d);
      var r := InsertSorted(ds[1..], d);
      assert ds == [ds[0]] + ds[1..];
      forall j | 0 <= j < |r| ensures ds[0].hashcmp > r[j].hashcmp {
        assert r[j] in r;
      }
    }
  }

  /** Sorting a list that is already newest first changes nothing. */
  lemma {:induction false} SortOfSorted(ds: seq<Distribution>)
    requires NewestFirst(ds)
    ensures SortNewestFirst(ds) == ds
    decreases |ds|
  {
    if ds != [] {
      var front, last := ds[..|ds| - 1], ds[|ds| - 1];
      SortOfSorted(front);
      InsertOldest(front, last);
    }
  }

  lemma {:induction false} InsertOldest(ds: seq<Distribution>, d: Distribution)
    requires forall i :: 0 <= i < |ds| ==> ds[i].hashcmp > d.hashcmp
    ensures InsertSorted(ds, d) == ds + [d]
    decreases |ds|
  {
    if ds != [] {
      InsertOldest(ds[1..], d);
    }
  }

  /** What adding does to the list of a project. */
  function AddTo(ds: seq<Distribution>, d: Distribution): seq<Distribution> {
    if Listed(ds, d) then ds else SortNewestFirst(ds + [d])
  }

  /** What removing does to it: the first equal distribution goes. */
  function RemoveFrom(ds: seq<Distribution>, d: Distribution): seq<Distribution> {
    if ds == [] then []
    else if ds[0].hashcmp == d.hashcmp then ds[1..]
    else [ds[0]] + RemoveFrom(ds[1..], d)
  }

  function OrderKeys(ds: seq<Distribution>): set<int> {
    set d | d in ds :: d.hashcmp
  }

  lemma {:induction false} AddToKeeps(ds: seq<Distribution>, d: Distribution)
    requires NewestFirst(ds)
    ensures NewestFirst(AddTo(ds, d)) && OrderKeys(AddTo(ds, d)) == OrderKeys(ds) + {d.hashcmp}
    ensures forall x :: x in AddTo(ds, d) ==> x in ds || x == d
    ensures forall x :: x in ds ==> x in AddTo(ds, d)
  {
    if Listed(ds, d) {
      var i :| 0 <= i < |ds| && ds[i].hashcmp == d.hashcmp;
      assert ds[i] in ds;
    } else {
      assert (ds + [d])[..|ds|] == ds;
      SortOfSorted(ds);
      InsertIsSorted(ds, d);
      assert d in AddTo(ds, d);
    }
  }

  lemma ConsKeys(d: Distribution, ds: seq<Distribution>)
    ensures OrderKeys([d] + ds) == {d.hashcmp} + OrderKeys(ds)
    ensures (forall x :: x in ds ==> d.hashcmp > x.hashcmp) && NewestFirst(ds) ==> NewestFirst([d] + ds)
  {
    assert d in [d] + ds;
    forall x | x in ds ensures x in [d] + ds {
    }
    assert forall j :: 0 <= j < |ds| ==> ds[j] in ds;
  }

  lemma {:induction false} RemoveFromKeeps(ds: seq<Distribution>, d: Distribution)
    requires NewestFirst(ds)
    ensures NewestFirst(RemoveFrom(ds, d)) && OrderKeys(RemoveFrom(ds, d)) == OrderKeys(ds) - {d.hashcmp}
    ensures forall x :: x in RemoveFrom(ds, d) ==> x in ds
    decreases |ds|
  {
    if ds != [] {
      var rest := ds[1..];
      assert ds == [ds[0]] + rest;
      RemoveFromKeeps(rest, d);
      ConsKeys(ds[0], rest);
      assert forall x :: x in rest ==> ds[0].hashcmp > x.hashcmp;
      if ds[0].hashcmp == d.hashcmp {
        assert d.hashcmp !in OrderKeys(rest);
      } else {
        ConsKeys(ds[0], RemoveFrom(rest, d));
      }
    }
  }

  // ----- every sequence of additions and removals -----

  datatype Change = Adding(dist: Distribution) | Removing(dist: Distribution)

  /** The list of a project after a sequence of changes, given what the environment accepts. */
  function ListAfter(changes: seq<Change>, accepts: Distribution -> bool, key: string): seq<Distribution>
    decreases |changes|
  {
    if changes == [] then []
    else
      var before := ListAfter(changes[..|changes| - 1], accepts, key);
      match changes[|changes| - 1]
      case Adding(d) => if d.key == key && accepts(d) then AddTo(before, d) else before
      case Removing(d) => if d.key == key then RemoveFrom(before, d) else before
  }

  /** The order keys that should be listed: accepted and not removed since. */
  ghost predicate Remains(changes: seq<Change>, accepts: Distribution -> bool, key: string, k: int) {
    exists i :: 0 <= i < |changes| && AddedAt(changes, accepts, key, k, i)
      && forall j :: i < j < |changes| ==> !RemovedAt(changes, key, k, j)
  }

  predicate AddedAt(changes: seq<Change>, accepts: Distribution -> bool, key: string, k: int, i: nat)
    requires i < |changes|
  {
    var c := changes[i];
    c.Adding? && c.dist.key == key && c.dist.hashcmp == k && accepts(c.dist)
  }

  predicate RemovedAt(changes: seq<Change>, key: string, k: int, j: nat)
    requires j < |changes|
  {
    var c := changes[j];
    c.Removing? && c.dist.key == key && c.dist.hashcmp == k
  }

  lemma {:induction false} RemainsStep(changes: seq<Change>, accepts: Distribution -> bool, key: string, k: int)
    requires changes != []
    ensures var n := |changes| - 1;
      Remains(changes, accepts, key, k) <==>
        AddedAt(changes, accepts, key, k, n) || (Remains(changes[..n], accepts, key, k) && !RemovedAt(changes, key, k, n))
  {
    var n := |changes| - 1;
    var front := changes[..n];
    if AddedAt(changes, accepts, key, k, n) {
      assert Remains(changes, accepts, key, k);
    }
    if i :| 0 <= i < |front| && AddedAt(front, accepts, key, k, i) && forall j :: i < j < |front| ==> !RemovedAt(front, key, k, j) {
      if !RemovedAt(changes, key, k, n) {
        assert AddedAt(changes, accepts, key, k, i);
        forall j | i < j < |changes| ensures !RemovedAt(changes, key, k, j) {
          if j < n { assert !RemovedAt(front, key, k, j); }
        }
      }
    }
    if i :| 0 <= i < |changes| && AddedAt(changes, accepts, key, k, i) && forall j :: i < j < |changes| ==> !RemovedAt(changes, key, k, j) {
      if i < n {
        assert AddedAt(front, accepts, key, k, i);
        forall j | i < j < |front| ensures !RemovedAt(front, key, k, j) {
          assert !RemovedAt(changes, key, k, j);
        }
      }
    }
  }

  /**
   After any sequence of additions and removals the list of a project is strictly newest
   first, holds only what the environment accepts for that project, and lists exactly what
   was accepted at some point and not removed since.
   */
  lemma {:induction false} AnySequence(changes: seq<Change>, accepts: Distribution -> bool, key: string)
    ensures var ds := ListAfter(changes, accepts, key);
      && NewestFirst(ds)
      && (forall d :: d in ds ==> d.key == key && accepts(d))
      && (forall k :: k in OrderKeys(ds) <==> Remains(changes, accepts, key, k))
    decreases |changes|
  {
    if changes != [] {
      var front, last := changes[..|changes| - 1], changes[|changes| - 1];
      var before := ListAfter(front, accepts, key);
      AnySequence(front, accepts, key);
      AddToKeeps(before, last.dist);
      RemoveFromKeeps(before, last.dist);
      forall k ensures k in OrderKeys(ListAfter(changes, accepts, key)) <==> Remains(changes, accepts, key, k) {
        RemainsStep(changes, accepts, key, k);
      }
    }
  }

  type Distmap = map<string, seq<Distribution>>

  function ListFor(m: Distmap, key: string): seq<Distribution> {
    if key in m then m[key] else []
  }

  class Environment {
    const platformFits: Option<string> -> bool
    const python: Option<string>
    var distmap: Distmap

    constructor (platformFits: Option<string> -> bool, python: Option<string>)
      ensures this.platformFits == platformFits && this.python == python && distmap == map[] && Valid()
    {
      this.platformFits, this.python, distmap := platformFits, python, map[];
    }

    predicate CanAdd(d: Distribution) {
      && (python.None? || d.pyVersion.None? || d.pyVersion == python)
      && platformFits(d.platform)
    }

    /** Every list is strictly newest first and holds only compatible distributions of its project. */
    ghost predicate Valid()
      reads this
    {
      forall k :: k in distmap ==>
        NewestFirst(distmap[k]) && forall d :: d in distmap[k] ==> d.key == k && CanAdd(d) && d.hasVersion
    }

    method Add(d: Distribution)
      requires Valid()
      modifies this`distmap
      ensures Valid()
      ensures ListFor(distmap, d.key) ==
        if CanAdd(d) && d.hasVersion then AddTo(ListFor(old(distmap), d.key), d) else ListFor(old(distmap), d.key)
      ensures forall k :: k != d.key ==> ListFor(distmap, k) == ListFor(old(distmap), k)
    {
      if CanAdd(d) && d.hasVersion {
        var dists := ListFor(distmap, d.key);
        AddToKeeps(dists, d);
        distmap := distmap[d.key := dists];
        if !Listed(dists, d) {
          dists := SortNewestFirst(dists + [d]);
          distmap := distmap[d.key := dists];
        }
      }
    }

    /** Fails if the project, or the distribution in it, is unknown. */
    method Remove(d: Distribution) returns (ok: bool)
      requires Valid()
      modifies this`distmap
      ensures Valid()
      ensures ok <==> Listed(ListFor(old(distmap), d.key), d)
      ensures ListFor(distmap, d.key) == RemoveFrom(ListFor(old(distmap), d.key), d)
      ensures forall k :: k != d.key ==> ListFor(distmap, k) == ListFor(old(distmap), k)
    {
      ok := false;
      if d.key in distmap {
        var dists := distmap[d.key];
        RemoveFromKeeps(dists, d);
        var i := 0;
        while i < |dists| && dists[i].hashcmp != d.hashcmp
          invariant 0 <= i <= |dists|
          invariant forall j :: 0 <= j < i ==> dists[j].hashcmp != d.hashcmp
        {
          i := i + 1;
        }
        ok := i < |dists|;
        RemoveAt(dists, d, i);
        if ok {
          distmap := distmap[d.key := dists[..i] + dists[i + 1..]];
        }
      }
    }

    /** `active` is what the working set has for the project. */
    method BestMatch(req: Requirement, specs: Specifiers, active: Option<Distribution>,
                     replaceConflicting: bool, installer: Option<Requirement -> Option<Distribution>>)
      returns (conflict: bool, r: Option<Distribution>)
      requires Valid()
      ensures conflict <==> active.Some? && !Meets(active.value, req, specs) && !replaceConflicting
      ensures active.Some? && Meets(active.value, req, specs) ==> r == active
      ensures !conflict && (active.None? || !Meets(active.value, req, specs)) ==>
        (var ds := ListFor(distmap, req.key);
         if exists d :: d in ds && Meets(d, req, specs)
         then r.Some? && r.value in ds && Meets(r.value, req, specs)
              && forall d :: d in ds && Meets(d, req, specs) ==> d.hashcmp <= r.value.hashcmp
         else r == if installer.Some? then installer.value(req) else None)
    {
      conflict, r := false, None;
      if active.Some? {
        if Meets(active.value, req, specs) {
          r := active;
          return;
        }
        if !replaceConflicting {
          conflict := true;
          return;
        }
      }
      var ds := ListFor(distmap, req.key);
      for i := 0 to |ds|
        invariant forall j :: 0 <= j < i ==> !Meets(ds[j], req, specs)
      {
        if Meets(ds[i], req, specs) {
          r := Some(ds[i]);
          return;
        }
      }
      if installer.Some? {
        r := installer.value(req);
      }
    }
  }

  lemma {:induction false} RemoveAt(ds: seq<Distribution>, d: Distribution, i: nat)
    requires i <= |ds| && forall j :: 0 <= j < i ==> ds[j].hashcmp != d.hashcmp
    requires i < |ds| ==> ds[i].hashcmp == d.hashcmp
    ensures RemoveFrom(ds, d) == if i < |ds| then ds[..i] + ds[i + 1..] else ds
    decreases i
  {
    if i > 0 {
      RemoveAt(ds[1..], d, i - 1);
      if i < |ds| {
        assert ds[1..][..i - 1] == ds[1..i] && ds[1..][i..] == ds[i + 1..];
      }
    }
  }
}
