/**
 The two watch tables of an inotify instance, path to descriptor and descriptor to path,
 and what reading one raw event does to them: remembering a rename's source, moving a watch
 and its whole subtree, forgetting an ignored descriptor, watching a new directory.

 The kernel and the file system are inputs: the result of every attempt to add a watch, and
 the entries found when a new directory is walked.
 */
module InotifyWatches {
  import opened Common
  import opened Texts

  // ----- byte strings -----

  function Interleave(s: string, new_: string): string {
    if s == "" then new_ else new_ + [s[0]] + Interleave(s[1..], new_)
  }

  function Replace(s: string, old_: string, new_: string): string {
    if old_ == "" then Interleave(s, new_) else ReplaceText(s, old_, new_)
  }

  predicate OccursAt(text: string, s: string, i: nat) {
    i + |text| <= |s| && s[i..i + |text|] == text
  }

  ghost predicate Occurs(text: string, s: string) {
    exists i :: OccursAt(text, s, i)
  }

  lemma {:induction false} OccursInTail(text: string, s: string)
    requires s != "" && text != "" && !OccursAt(text, s, 0)
    ensures Occurs(text, s) <==> Occurs(text, s[1..])
  {
    if i: nat :| OccursAt(text, s, i) {
      assert OccursAt(text, s[1..], i - 1);
    }
    if i: nat :| OccursAt(text, s[1..], i) {
      assert OccursAt(text, s, i + 1);
    }
  }

  lemma {:induction false} ReplaceAbsent(s: string, old_: string, new_: string)
    requires old_ != "" && !Occurs(old_, s)
    ensures ReplaceText(s, old_, new_) == s
    decreases |s|
  {
    if |s| >= |old_| {
      assert !OccursAt(old_, s, 0);
      OccursInTail(old_, s);
      ReplaceAbsent(s[1..], old_, new_);
    }
  }

  /** Replacing by a longer (shorter) text never shortens (lengthens), and a replacement shows. */
  lemma {:induction false} ReplaceLength(s: string, old_: string, new_: string)
    requires old_ != ""
    ensures |new_| >= |old_| ==> |ReplaceText(s, old_, new_)| >= |s|
    ensures |new_| <= |old_| ==> |ReplaceText(s, old_, new_)| <= |s|
    decreases |s|
  {
    if |s| < |old_| {
    } else if s[..|old_|] == old_ {
      ReplaceLength(s[|old_|..], old_, new_);
    } else {
      ReplaceLength(s[1..], old_, new_);
    }
  }

  lemma {:induction false} ReplacePresent(s: string, old_: string, new_: string)
    requires old_ != "" && Occurs(old_, s) && new_ != old_
    ensures ReplaceText(s, old_, new_) != s
    decreases |s|
  {
    var i: nat :| OccursAt(old_, s, i);
    var r := ReplaceText(s, old_, new_);
    if s[..|old_|] == old_ {
      ReplaceLength(s[|old_|..], old_, new_);
      if |new_| == |old_| {
        assert r[..|old_|] == new_;
      }
    } else {
      assert !OccursAt(old_, s, 0);
      OccursInTail(old_, s);
      ReplacePresent(s[1..], old_, new_);
      assert r[1..] == ReplaceText(s[1..], old_, new_);
    }
  }

  /** `p` lies strictly inside the directory `dir`. */
  predicate Under(dir: string, p: string) {
    dir + [SEP] <= p
  }

  /** The path that a watch inside `src` should have after `src` became `dst`. */
  function Rebased(p: string, src: string, dst: string): string
    requires Under(src, p)
  {
    dst + p[|src|..]
  }

  /**
   Textual replacement rebases a path exactly when the source text does not occur again
   behind the prefix (or nothing was renamed).
   */
  lemma {:induction false} ReplaceRebases(p: string, src: string, dst: string)
    requires src != "" && Under(src, p)
    ensures Replace(p, src, dst) == Rebased(p, src, dst) <==> src == dst || !Occurs(src, p[|src|..])
  {
    var rest := p[|src|..];
    assert p[..|src|] == src;
    assert Replace(p, src, dst) == dst + ReplaceText(rest, src, dst);
    assert (dst + ReplaceText(rest, src, dst))[|dst|..] == ReplaceText(rest, src, dst);
    assert (dst + rest)[|dst|..] == rest;
    if !Occurs(src, rest) {
      ReplaceAbsent(rest, src, dst);
    } else if src != dst {
      ReplacePresent(rest, src, dst);
    } else {
      ReplaceSame(rest, src);
    }
  }

  lemma {:induction false} ReplaceSame(s: string, old_: string)
    requires old_ != ""
    ensures ReplaceText(s, old_, old_) == s
    decreases |s|
  {
    if |s| < |old_| {
    } else if s[..|old_|] == old_ {
      ReplaceSame(s[|old_|..], old_);
    } else {
      ReplaceSame(s[1..], old_);
    }
  }

  // ----- the tables -----

  datatype Watches = Watches(wdForPath: map<string, int>, pathForWd: map<int, string>)

  ghost predicate Consistent(w: Watches) {
    forall p :: p in w.wdForPath ==> w.wdForPath[p] in w.pathForWd && w.pathForWd[w.wdForPath[p]] == p
  }

  /** The descriptor is not recorded for any other path. */
  ghost predicate FreshFor(w: Watches, path: string, wd: int) {
    forall q :: q in w.wdForPath && q != path ==> w.wdForPath[q] != wd
  }

  function Add(w: Watches, path: string, wd: int): Watches {
    Watches(w.wdForPath[path := wd], w.pathForWd[wd := path])
  }

  function Remove(w: Watches, path: string): Watches
    requires path in w.wdForPath
  {
    Watches(w.wdForPath - {path}, w.pathForWd - {w.wdForPath[path]})
  }

  /** Record the watch of `p` under the new path `q`. */
  function Move(w: Watches, p: string, q: string): Watches
    requires p in w.wdForPath
  {
    Watches((w.wdForPath - {p})[q := w.wdForPath[p]], w.pathForWd[w.wdForPath[p] := q])
  }

  function MoveIfUnder(w: Watches, src: string, dst: string, p: string): Watches {
    if Under(src, p) && p in w.wdForPath then Move(w, p, Replace(p, src, dst)) else w
  }

  function MoveAll(w: Watches, src: string, dst: string, order: seq<string>): Watches
    decreases |order|
  {
    if order == [] then w
    else MoveIfUnder(MoveAll(w, src, dst, order[..|order| - 1]), src, dst, order[|order| - 1])
  }

  /** The effect of a matched rename; `order` is the order in which the table is traversed. */
  function Rename(w: Watches, src: string, dst: string, recursive: bool, order: seq<string>): Watches
    requires src in w.wdForPath
  {
    var moved := Move(w, src, dst);
    if recursive then MoveAll(moved, src, dst, order) else moved
  }

  ghost predicate Enumerates(order: seq<string>, w: Watches) {
    && Distinct(order)
    && (forall p :: p in w.wdForPath <==> p in order)
  }

  function Ignore(w: Watches, wd: int): Watches
    requires wd in w.pathForWd
  {
    var path := w.pathForWd[wd];
    Watches(if path in w.wdForPath && w.wdForPath[path] == wd then w.wdForPath - {path} else w.wdForPath,
            w.pathForWd - {wd})
  }

  // ----- what keeps the tables consistent -----

  lemma NoSharedDescriptor(w: Watches, p: string, q: string)
    requires Consistent(w) && p in w.wdForPath && q in w.wdForPath && p != q
    ensures w.wdForPath[p] != w.wdForPath[q]
  {
  }

  /** Adding a watch keeps the tables consistent exactly when its descriptor is not taken. */
  lemma AddKeepsIff(w: Watches, path: string, wd: int)
    requires Consistent(w)
    ensures Consistent(Add(w, path, wd)) <==> FreshFor(w, path, wd)
  {
    var w' := Add(w, path, wd);
    if q :| q in w.wdForPath && q != path && w.wdForPath[q] == wd {
      assert w'.wdForPath[q] == wd && w'.pathForWd[wd] == path;
    }
  }

  lemma RemoveKeeps(w: Watches, path: string)
    requires Consistent(w) && path in w.wdForPath
    ensures Consistent(Remove(w, path))
  {
    forall p | p in w.wdForPath && p != path ensures w.wdForPath[p] != w.wdForPath[path] {
      NoSharedDescriptor(w, p, path);
    }
  }

  /** Moving a watch keeps the tables consistent whatever stood at the new path. */
  lemma MoveKeeps(w: Watches, p: string, q: string)
    requires Consistent(w) && p in w.wdForPath
    ensures Consistent(Move(w, p, q))
  {
    forall r | r in w.wdForPath && r != p ensures w.wdForPath[r] != w.wdForPath[p] {
      NoSharedDescriptor(w, r, p);
    }
  }

  lemma {:induction false} MoveAllKeeps(w: Watches, src: string, dst: string, order: seq<string>)
    requires Consistent(w)
    ensures Consistent(MoveAll(w, src, dst, order))
    decreases |order|
  {
    if order != [] {
      var front, p := order[..|order| - 1], order[|order| - 1];
      MoveAllKeeps(w, src, dst, front);
      var m := MoveAll(w, src, dst, front);
      if Under(src, p) && p in m.wdForPath {
        MoveKeeps(m, p, Replace(p, src, dst));
      }
    }
  }

  lemma RenameKeeps(w: Watches, src: string, dst: string, recursive: bool, order: seq<string>)
    requires Consistent(w) && src in w.wdForPath
    ensures Consistent(Rename(w, src, dst, recursive, order))
  {
    MoveKeeps(w, src, dst);
    MoveAllKeeps(Move(w, src, dst), src, dst, order);
  }

  /** Also when the path was watched again before its old descriptor was reported ignored. */
  lemma IgnoreKeeps(w: Watches, wd: int)
    requires Consistent(w) && wd in w.pathForWd
    ensures Consistent(Ignore(w, wd))
  {
  }

  // ----- where a rename puts every watch -----

  /** A watched directory is renamed to another path, neither inside the other. */
  predicate ProperRename(w: Watches, src: string, dst: string) {
    src != "" && dst != "" && src in w.wdForPath && src != dst && !Under(src, dst) && !Under(dst, src)
  }

  /** No watch inside `src` has the text of `src` again in the rest of its path. */
  ghost predicate SourceOccursOnce(w: Watches, src: string) {
    forall p :: p in w.wdForPath && Under(src, p) ==> !Occurs(src, p[|src|..])
  }

  function Target(p: string, src: string, dst: string): string {
    if p == src then dst else if Under(src, p) then Rebased(p, src, dst) else p
  }

  /** Every entry of `w` is in `w'` at its place, with the same descriptor, and there is no other. */
  ghost predicate Placed(w: map<string, int>, w': map<string, int>, place: string -> string) {
    && (forall p :: p in w ==> place(p) in w' && w'[place(p)] == w[p])
    && (forall r :: r in w' ==> exists p :: p in w && place(p) == r)
  }

  function PlaceAfter(src: string, dst: string, done: set<string>): string -> string {
    (p: string) => if p == src || p in done then Target(p, src, dst) else p
  }

  ghost predicate TargetsApart(w: Watches, src: string, dst: string) {
    forall p, q :: p in w.wdForPath && q in w.wdForPath && p != q ==> Target(p, src, dst) != Target(q, src, dst)
  }

  /** The conditions under which a recursive rename is exact. */
  ghost predicate CleanRename(w: Watches, src: string, dst: string) {
    ProperRename(w, src, dst) && SourceOccursOnce(w, src) && TargetsApart(w, src, dst)
  }

  /** Only nested directories have a path in common. */
  lemma {:induction false} InsideBoth(src: string, dst: string, r: string)
    requires (r == src || Under(src, r)) && (r == dst || Under(dst, r))
    ensures src == dst || Under(src, dst) || Under(dst, src)
  {
    if |src| < |dst| {
      assert src + [SEP] == r[..|src| + 1] == dst[..|src| + 1];
    } else if |dst| < |src| {
      assert dst + [SEP] == r[..|dst| + 1] == src[..|dst| + 1];
    } else {
      assert src == r[..|src|] == dst;
    }
  }

  /** Where the code puts an entry. */
  function Put(p: string, src: string, dst: string): string {
    if p == src then dst else if Under(src, p) then Replace(p, src, dst) else p
  }

  /** What was moved is not in the way of what is to be moved. */
  lemma {:induction false} PutElsewhere(w: Watches, src: string, dst: string, p: string)
    requires ProperRename(w, src, dst) && (p == src || Under(src, p))
    ensures Put(p, src, dst) != src && !Under(src, Put(p, src, dst))
  {
    if p != src {
      var rest := p[|src|..];
      var more := ReplaceText(rest, src, dst);
      assert p[..|src|] == src && rest[0] == SEP;
      assert Put(p, src, dst) == dst + more;
      if more != "" && more[0] == SEP {
        assert dst + [SEP] <= dst + more;
        if dst + more == src || Under(src, dst + more) { InsideBoth(src, dst, dst + more); }
      } else {
        assert rest[..|src|] == src;
        assert src[0] == SEP && dst[0] != SEP;
      }
    }
  }

  lemma TargetIsPut(w: Watches, src: string, dst: string, p: string)
    requires ProperRename(w, src, dst) && p in w.wdForPath
    ensures Target(p, src, dst) == Put(p, src, dst) <==> (Under(src, p) && p != src ==> !Occurs(src, p[|src|..]))
  {
    if Under(src, p) && p != src { ReplaceRebases(p, src, dst); }
  }

  lemma TargetsDiffer(w: Watches, src: string, dst: string, p: string, q: string)
    requires CleanRename(w, src, dst) && p in w.wdForPath && q in w.wdForPath && p != q
    ensures Target(p, src, dst) != Target(q, src, dst)
    ensures Target(p, src, dst) == q ==> Target(p, src, dst) == p
  {
    TargetIsPut(w, src, dst, p);
    if p == src || Under(src, p) { PutElsewhere(w, src, dst, p); }
  }

  /** Moving one entry to a place nobody else has. */
  lemma PlaceOne(w: map<string, int>, m: map<string, int>, before: string -> string, after: string -> string,
                 p: string, t: string)
    requires Placed(w, m, before) && p in w && before(p) == p && after(p) == t
    requires forall q :: q in w && q != p ==> after(q) == before(q) && before(q) != p && before(q) != t
    ensures p in m && Placed(w, (m - {p})[t := m[p]], after)
  {
    var m' := (m - {p})[t := m[p]];
    forall r | r in m' ensures exists q :: q in w && after(q) == r {
      if r != t {
        var q :| q in w && before(q) == r;
        assert after(q) == r;
      }
    }
  }

  lemma SamePlaces(w: map<string, int>, m: map<string, int>, before: string -> string, after: string -> string)
    requires Placed(w, m, before)
    requires forall q :: q in w ==> after(q) == before(q)
    ensures Placed(w, m, after)
  {
    forall r | r in m ensures exists q :: q in w && after(q) == r {
      var q :| q in w && before(q) == r;
      assert after(q) == r;
    }
  }

  lemma PlacesApart(w: Watches, src: string, dst: string, done: set<string>, p: string, q: string)
    requires CleanRename(w, src, dst) && p in w.wdForPath && q in w.wdForPath && p != q
    ensures PlaceAfter(src, dst, done)(q) != p && PlaceAfter(src, dst, done)(q) != Target(p, src, dst)
  {
    TargetsDiffer(w, src, dst, q, p);
    TargetsDiffer(w, src, dst, p, q);
  }

  lemma OthersApart(w: Watches, src: string, dst: string, done: set<string>, p: string)
    requires CleanRename(w, src, dst) && p in w.wdForPath
    ensures var before, after := PlaceAfter(src, dst, done), PlaceAfter(src, dst, done + {p});
      forall q :: q in w.wdForPath && q != p ==>
        after(q) == before(q) && before(q) != p && before(q) != Target(p, src, dst)
  {
    forall q | q in w.wdForPath && q != p
      ensures PlaceAfter(src, dst, done)(q) != p && PlaceAfter(src, dst, done)(q) != Target(p, src, dst)
    {
      PlacesApart(w, src, dst, done, p, q);
    }
  }

  lemma MovesToTarget(w: Watches, m: Watches, src: string, dst: string, p: string)
    requires CleanRename(w, src, dst) && p in w.wdForPath && p in m.wdForPath && Under(src, p)
    ensures MoveIfUnder(m, src, dst, p) == Move(m, p, Target(p, src, dst))
  {
    ReplaceRebases(p, src, dst);
  }

  lemma MoveStepPlaces(w: Watches, m: Watches, src: string, dst: string, done: set<string>, p: string)
    requires CleanRename(w, src, dst) && Placed(w.wdForPath, m.wdForPath, PlaceAfter(src, dst, done))
    requires p in w.wdForPath && p != src && p !in done && done <= w.wdForPath.Keys
    ensures Placed(w.wdForPath, MoveIfUnder(m, src, dst, p).wdForPath, PlaceAfter(src, dst, done + {p}))
  {
    var before, after := PlaceAfter(src, dst, done), PlaceAfter(src, dst, done + {p});
    if Under(src, p) {
      var t := Target(p, src, dst);
      OthersApart(w, src, dst, done, p);
      PlaceOne(w.wdForPath, m.wdForPath, before, after, p, t);
      MovesToTarget(w, m, src, dst, p);
    } else {
      SamePlaces(w.wdForPath, m.wdForPath, before, after);
    }
  }

  lemma StartPlaces(w: Watches, src: string, dst: string)
    requires CleanRename(w, src, dst)
    ensures Placed(w.wdForPath, Move(w, src, dst).wdForPath, PlaceAfter(src, dst, {}))
  {
    var place := PlaceAfter(src, dst, {});
    forall r | r in Move(w, src, dst).wdForPath ensures exists p :: p in w.wdForPath && place(p) == r {
      assert r == place(if r == dst then src else r);
    }
  }

  function ElementsOf(order: seq<string>): set<string> {
    set p | p in order
  }

  lemma LastElement(order: seq<string>)
    requires order != [] && Distinct(order)
    ensures var front, p := order[..|order| - 1], order[|order| - 1];
      && Distinct(front) && p in order && p !in ElementsOf(front)
      && ElementsOf(order) == ElementsOf(front) + {p}
      && (forall x :: x in front ==> x in order)
  {
  }

  lemma {:induction false} MoveAllPlaces(w: Watches, src: string, dst: string, order: seq<string>)
    requires CleanRename(w, src, dst)
    requires Distinct(order)
    requires ElementsOf(order) <= w.wdForPath.Keys && src !in ElementsOf(order)
    ensures Placed(w.wdForPath, MoveAll(Move(w, src, dst), src, dst, order).wdForPath,
                   PlaceAfter(src, dst, ElementsOf(order)))
    decreases |order|
  {
    if order == [] {
      StartPlaces(w, src, dst);
      assert ElementsOf(order) == {};
    } else {
      var front, p := order[..|order| - 1], order[|order| - 1];
      var m := MoveAll(Move(w, src, dst), src, dst, front);
      LastElement(order);
      MoveAllPlaces(w, src, dst, front);
      MoveStepPlaces(w, m, src, dst, ElementsOf(front), p);
      assert MoveAll(Move(w, src, dst), src, dst, order) == MoveIfUnder(m, src, dst, p);
    }
  }

  lemma CleanRenamePlaces(w: Watches, src: string, dst: string, order: seq<string>)
    requires CleanRename(w, src, dst) && Enumerates(order, Move(w, src, dst))
    ensures Placed(w.wdForPath, Rename(w, src, dst, true, order).wdForPath, p => Target(p, src, dst))
  {
    var place := (p: string) => Target(p, src, dst);
    var others := Others(order, dst);
    OthersMove(Move(w, src, dst), src, dst, order);
    OthersDistinct(order, dst);
    assert forall p :: p in others ==> p in w.wdForPath && p != src;
    MoveAllPlaces(w, src, dst, others);
    var moved := PlaceAfter(src, dst, ElementsOf(others));
    forall p | p in w.wdForPath ensures moved(p) == place(p) {
      if p != src && p != dst { assert p in Move(w, src, dst).wdForPath && p in order && p in others; }
    }
    SamePlaces(w.wdForPath, Rename(w, src, dst, true, order).wdForPath, moved, place);
  }

  // ----- what every entry comes from -----

  function PutAfter(p: string, src: string, dst: string, done: set<string>): string {
    if p == src || p in done then Put(p, src, dst) else p
  }

  /** Every entry is where the code put the entry that had its descriptor. */
  ghost predicate Traced(w: Watches, m: Watches, src: string, dst: string, done: set<string>) {
    forall r :: r in m.wdForPath ==> ComesFrom(w, m.wdForPath[r], src, dst, done, r)
  }

  ghost predicate ComesFrom(w: Watches, wd: int, src: string, dst: string, done: set<string>, r: string) {
    exists q :: q in w.wdForPath && PutAfter(q, src, dst, done) == r && w.wdForPath[q] == wd
  }

  lemma {:induction false} StartTraced(w: Watches, src: string, dst: string)
    requires src in w.wdForPath
    ensures Traced(w, Move(w, src, dst), src, dst, {})
  {
    var m := Move(w, src, dst);
    forall r | r in m.wdForPath ensures ComesFrom(w, m.wdForPath[r], src, dst, {}, r) {
      assert PutAfter(if r == dst then src else r, src, dst, {}) == r;
    }
  }

  lemma {:induction false} MoveStepTraced(w: Watches, m: Watches, src: string, dst: string, done: set<string>, p: string)
    requires ProperRename(w, src, dst) && Traced(w, m, src, dst, done) && p in w.wdForPath && p != src && p !in done
    ensures Traced(w, MoveIfUnder(m, src, dst, p), src, dst, done + {p})
  {
    var m' := MoveIfUnder(m, src, dst, p);
    forall r | r in m'.wdForPath ensures ComesFrom(w, m'.wdForPath[r], src, dst, done + {p}, r) {
      if !Under(src, p) {
        SameOrigin(w, m.wdForPath[r], src, dst, done, p, r);
      } else if p in m.wdForPath && r == Put(p, src, dst) {
        UnmovedOrigin(w, m, src, dst, done, p);
        assert PutAfter(p, src, dst, done + {p}) == r;
      } else {
        assert r != p || p !in m.wdForPath;
        OtherOrigin(w, m, src, dst, done, p, r);
      }
    }
  }

  lemma {:induction false} SameOrigin(w: Watches, wd: int, src: string, dst: string, done: set<string>, p: string, r: string)
    requires ComesFrom(w, wd, src, dst, done, r) && p != src && !Under(src, p)
    ensures ComesFrom(w, wd, src, dst, done + {p}, r)
  {
    var q :| q in w.wdForPath && PutAfter(q, src, dst, done) == r && w.wdForPath[q] == wd;
    assert PutAfter(q, src, dst, done + {p}) == r;
  }

  /** What stands at a path still to be moved is its own entry. */
  lemma {:induction false} UnmovedOrigin(w: Watches, m: Watches, src: string, dst: string, done: set<string>, p: string)
    requires ProperRename(w, src, dst) && Traced(w, m, src, dst, done) && p in w.wdForPath && p in m.wdForPath && Under(src, p)
    ensures m.wdForPath[p] == w.wdForPath[p]
  {
    assert ComesFrom(w, m.wdForPath[p], src, dst, done, p);
    var q :| q in w.wdForPath && PutAfter(q, src, dst, done) == p && w.wdForPath[q] == m.wdForPath[p];
    if q == src || Under(src, q) { PutElsewhere(w, src, dst, q); }
  }

  lemma {:induction false} OtherOrigin(w: Watches, m: Watches, src: string, dst: string, done: set<string>, p: string, r: string)
    requires Traced(w, m, src, dst, done) && p != src && p !in done && r in m.wdForPath && r != p
    ensures ComesFrom(w, m.wdForPath[r], src, dst, done + {p}, r)
  {
    assert ComesFrom(w, m.wdForPath[r], src, dst, done, r);
    var q :| q in w.wdForPath && PutAfter(q, src, dst, done) == r && w.wdForPath[q] == m.wdForPath[r];
    assert q != p;
    assert PutAfter(q, src, dst, done + {p}) == r;
  }

  lemma {:induction false} MoveAllTraced(w: Watches, src: string, dst: string, order: seq<string>)
    requires ProperRename(w, src, dst) && Distinct(order) && ElementsOf(order) <= w.wdForPath.Keys && src !in ElementsOf(order)
    ensures Traced(w, MoveAll(Move(w, src, dst), src, dst, order), src, dst, ElementsOf(order))
    decreases |order|
  {
    if order == [] {
      StartTraced(w, src, dst);
      assert ElementsOf(order) == {};
    } else {
      var front, p := order[..|order| - 1], order[|order| - 1];
      LastElement(order);
      MoveAllTraced(w, src, dst, front);
      MoveStepTraced(w, MoveAll(Move(w, src, dst), src, dst, front), src, dst, ElementsOf(front), p);
    }
  }

  lemma {:induction false} RenameTraced(w: Watches, src: string, dst: string, order: seq<string>, r: string)
    requires ProperRename(w, src, dst) && Enumerates(order, Move(w, src, dst)) && r in Rename(w, src, dst, true, order).wdForPath
    ensures exists q :: q in w.wdForPath && Put(q, src, dst) == r && w.wdForPath[q] == Rename(w, src, dst, true, order).wdForPath[r]
  {
    var m, others := Rename(w, src, dst, true, order), Others(order, dst);
    OthersMove(Move(w, src, dst), src, dst, order);
    OthersDistinct(order, dst);
    assert forall p :: p in others ==> p in w.wdForPath && p != src;
    MoveAllTraced(w, src, dst, others);
    assert ComesFrom(w, m.wdForPath[r], src, dst, ElementsOf(others), r);
    var q :| q in w.wdForPath && PutAfter(q, src, dst, ElementsOf(others)) == r && w.wdForPath[q] == m.wdForPath[r];
    if q != src && q != dst { assert q in Move(w, src, dst).wdForPath && q in order && q in others; }
    assert Put(q, src, dst) == r;
  }

  lemma {:induction false} PlacedIsClean(w: Watches, src: string, dst: string, order: seq<string>)
    requires Consistent(w) && ProperRename(w, src, dst) && Enumerates(order, Move(w, src, dst))
    requires Placed(w.wdForPath, Rename(w, src, dst, true, order).wdForPath, p => Target(p, src, dst))
    ensures SourceOccursOnce(w, src) && TargetsApart(w, src, dst)
  {
    var w' := Rename(w, src, dst, true, order);
    var place := (p: string) => Target(p, src, dst);
    forall p, q | p in w.wdForPath && q in w.wdForPath && p != q ensures Target(p, src, dst) != Target(q, src, dst) {
      NoSharedDescriptor(w, p, q);
      assert w'.wdForPath[place(p)] == w.wdForPath[p] && w'.wdForPath[place(q)] == w.wdForPath[q];
    }
    forall p | p in w.wdForPath && Under(src, p) ensures !Occurs(src, p[|src|..]) {
      assert place(p) in w'.wdForPath && w'.wdForPath[place(p)] == w.wdForPath[p];
      RenameTraced(w, src, dst, order, place(p));
      var q :| q in w.wdForPath && Put(q, src, dst) == place(p) && w.wdForPath[q] == w'.wdForPath[place(p)];
      if q != p { NoSharedDescriptor(w, p, q); }
      TargetIsPut(w, src, dst, p);
    }
  }

  /**
   After a matched rename in recursive mode, whatever the order in which the table is
   traversed: the watch of `src` is recorded at `dst`, the watch of `src/rest` at
   `dst/rest`, every other watch where it was, all with their descriptors, and nothing else,
   exactly if no watch inside `src` repeats its text and no two of these places coincide.
   */
  lemma {:induction false} RenameIsExact(w: Watches, src: string, dst: string, order: seq<string>)
    requires Consistent(w) && ProperRename(w, src, dst)
    requires Enumerates(order, Move(w, src, dst))
    ensures var w' := Rename(w, src, dst, true, order);
      && (Placed(w.wdForPath, w'.wdForPath, p => Target(p, src, dst)) <==> SourceOccursOnce(w, src) && TargetsApart(w, src, dst))
      && (Placed(w.wdForPath, w'.wdForPath, p => Target(p, src, dst)) ==> KnownAtTargets(w, w', src, dst))
  {
    var w' := Rename(w, src, dst, true, order);
    var place := (p: string) => Target(p, src, dst);
    if CleanRename(w, src, dst) { CleanRenamePlaces(w, src, dst, order); }
    if Placed(w.wdForPath, w'.wdForPath, place) {
      PlacedIsClean(w, src, dst, order);
      RenameKeeps(w, src, dst, true, order);
      forall p | p in w.wdForPath ensures w.wdForPath[p] in w'.pathForWd && w'.pathForWd[w.wdForPath[p]] == Target(p, src, dst) {
        assert place(p) in w'.wdForPath;
      }
    }
  }

  /** Each recorded descriptor is known for its path's new place. */
  ghost predicate KnownAtTargets(w: Watches, w': Watches, src: string, dst: string) {
    forall p :: p in w.wdForPath ==>
      w.wdForPath[p] in w'.pathForWd && w'.pathForWd[w.wdForPath[p]] == Target(p, src, dst)
  }

  /** The traversal without the entry that has just been moved to `dst`. */
  function Others(order: seq<string>, dst: string): (r: seq<string>)
    ensures forall p :: p in r <==> p in order && p != dst
    decreases |order|
  {
    if order == [] then []
    else
      var rest := Others(order[..|order| - 1], dst);
      assert order == order[..|order| - 1] + [order[|order| - 1]];
      if order[|order| - 1] == dst then rest else rest + [order[|order| - 1]]
  }

  lemma {:induction false} OthersDistinct(order: seq<string>, dst: string)
    requires Distinct(order)
    ensures Distinct(Others(order, dst))
    decreases |order|
  {
    if order != [] {
      var front, last := order[..|order| - 1], order[|order| - 1];
      OthersDistinct(front, dst);
      assert last !in front;
      assert last !in Others(front, dst);
    }
  }

  lemma {:induction false} OthersMove(m: Watches, src: string, dst: string, order: seq<string>)
    requires !Under(src, dst)
    ensures MoveAll(m, src, dst, Others(order, dst)) == MoveAll(m, src, dst, order)
    decreases |order|
  {
    if order != [] {
      var front, last := order[..|order| - 1], order[|order| - 1];
      OthersMove(m, src, dst, front);
      if last != dst {
        assert Others(order, dst)[..|Others(order, dst)| - 1] == Others(front, dst);
      }
    }
  }
}
