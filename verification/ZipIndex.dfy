/**
 The directory index of a zip file: for every directory the names directly inside it, built
 by walking each archived path from its end and stopping at the first directory known.
 */
module ZipIndex {

  import opened Common
  import opened Texts

  // ----- the index over component lists -----

  type Index = map<seq<string>, seq<string>>

  function Entries(ind: Index, dir: seq<string>): seq<string> {
    if dir in ind then ind[dir] else []
  }

  /** One archived path, from its end up to the first directory that is known. */
  function Insert(ind: Index, parts: seq<string>): Index
    decreases |parts|
  {
    if parts == [] then ind
    else
      var dir, name := parts[..|parts| - 1], parts[|parts| - 1];
      if dir in ind then ind[dir := ind[dir] + [name]] else Insert(ind[dir := [name]], dir)
  }

  function Build(paths: seq<seq<string>>): Index
    decreases |paths|
  {
    if paths == [] then map[] else Insert(Build(paths[..|paths| - 1]), paths[|paths| - 1])
  }

  /** `dir` is a directory on the way to some path, with `name` directly inside it. */
  ghost predicate Inside(paths: seq<seq<string>>, dir: seq<string>, name: string) {
    exists i :: 0 <= i < |paths| && dir + [name] <= paths[i]
  }

  ghost predicate IsDir(paths: seq<seq<string>>, dir: seq<string>) {
    exists i :: 0 <= i < |paths| && dir < paths[i]
  }

  /** How often a directory should list a name: for every path of that name, and once more if it is a directory. */
  ghost function Listed(paths: seq<seq<string>>, dir: seq<string>, name: string): nat {
    Count(paths, dir + [name]) + if IsDir(paths, dir + [name]) then 1 else 0
  }

  /** The index says what it should about some paths. */
  ghost predicate Describes(ind: Index, paths: seq<seq<string>>) {
    && (forall dir :: dir in ind <==> IsDir(paths, dir))
    && (forall dir, name :: Count(Entries(ind, dir), name) == Listed(paths, dir, name))
  }

  /** Above a known directory on the way to `parts` every directory is known. */
  ghost predicate KnownUpwards(ind: Index, parts: seq<string>) {
    forall i, j :: 0 <= i < j < |parts| && parts[..j] in ind ==> parts[..i] in ind
  }

  lemma {:induction false} KnownAbove(ind: Index, parts: seq<string>, dir: seq<string>)
    requires parts != [] && KnownUpwards(ind, parts) && parts[..|parts| - 1] in ind && dir < parts
    ensures dir in ind
  {
    assert dir == parts[..|dir|];
    if |dir| < |parts| - 1 { assert parts[..|dir|] in ind; }
  }

  lemma {:induction false} StillKnownUpwards(ind: Index, parts: seq<string>, entries: seq<string>)
    requires parts != [] && KnownUpwards(ind, parts)
    ensures KnownUpwards(ind[parts[..|parts| - 1] := entries], parts[..|parts| - 1])
  {
    var d := parts[..|parts| - 1];
    var ind' := ind[d := entries];
    forall i, j | 0 <= i < j < |d| && d[..j] in ind' ensures d[..i] in ind' {
      assert d[..i] == parts[..i] && d[..j] == parts[..j] && |parts[..j]| < |d|;
    }
  }

  lemma {:induction false} InsertKeys(ind: Index, parts: seq<string>, dir: seq<string>)
    requires KnownUpwards(ind, parts)
    ensures dir in Insert(ind, parts) <==> dir in ind || dir < parts
    decreases |parts|
  {
    if parts != [] {
      var d, n := parts[..|parts| - 1], parts[|parts| - 1];
      if d in ind {
        if dir < parts { KnownAbove(ind, parts, dir); }
      } else {
        StillKnownUpwards(ind, parts, [n]);
        InsertKeys(ind[d := [n]], d, dir);
        assert parts == d + [n];
        assert dir < parts <==> dir == d || dir < d;
      }
    }
  }

  /** Inserting lists a name once more at the end of the path and in front of every directory new to the index. */
  lemma {:induction false} InsertCounts(ind: Index, parts: seq<string>, dir: seq<string>, name: string)
    requires KnownUpwards(ind, parts)
    ensures Count(Entries(Insert(ind, parts), dir), name)
      == Count(Entries(ind, dir), name) + if dir + [name] == parts || (dir + [name] < parts && dir + [name] !in ind) then 1 else 0
    decreases |parts|
  {
    if parts != [] {
      var d, n, q := parts[..|parts| - 1], parts[|parts| - 1], dir + [name];
      assert parts == d + [n];
      CountSnoc(Entries(ind, d), n, name);
      if d in ind {
        if q < parts { KnownAbove(ind, parts, q); }
      } else {
        var ind' := ind[d := [n]];
        assert [] + [n] == [n];
        StillKnownUpwards(ind, parts, [n]);
        InsertCounts(ind', d, dir, name);
        assert q < parts <==> q <= d;
      }
    }
  }

  /** A key's whole chain of ancestors is listed. */
  lemma {:induction false} AncestorsListed(ind: Index, paths: seq<seq<string>>, dir: seq<string>, m: nat)
    requires Describes(ind, paths) && dir in ind && m < |dir|
    ensures dir[..m] in ind && dir[m] in ind[dir[..m]]
  {
    var q := dir[..m + 1];
    assert dir[..m] + [dir[m]] == q;
    AboveIsDir(paths, dir, m);
    if m + 1 < |dir| { AboveIsDir(paths, dir, m + 1); } else { assert q == dir; }
    assert Listed(paths, dir[..m], dir[m]) > 0;
    CountIn(Entries(ind, dir[..m]), dir[m]);
  }

  lemma {:induction false} AboveIsDir(paths: seq<seq<string>>, dir: seq<string>, m: nat)
    requires IsDir(paths, dir) && m < |dir|
    ensures IsDir(paths, dir[..m])
  {
    var i :| 0 <= i < |paths| && dir < paths[i];
    assert dir[..m] < paths[i];
  }

  lemma {:induction false} MorePaths(paths: seq<seq<string>>, p: seq<string>, dir: seq<string>)
    ensures IsDir(paths + [p], dir) <==> IsDir(paths, dir) || dir < p
  {
    var all := paths + [p];
    assert all[|paths|] == p;
    if i :| 0 <= i < |paths| && dir < paths[i] { assert all[i] == paths[i]; }
    if i :| 0 <= i < |all| && dir < all[i] { assert i < |paths| ==> paths[i] == all[i]; }
  }

  lemma {:induction false} DescribedIsKnownUpwards(ind: Index, paths: seq<seq<string>>, p: seq<string>)
    requires Describes(ind, paths)
    ensures KnownUpwards(ind, p)
  {
    forall i, j | 0 <= i < j < |p| && p[..j] in ind ensures p[..i] in ind {
      AboveIsDir(paths, p[..j], i);
      assert p[..j][..i] == p[..i];
    }
  }

  lemma {:induction false} InsertDescribes(ind: Index, paths: seq<seq<string>>, p: seq<string>)
    requires Describes(ind, paths)
    ensures Describes(Insert(ind, p), paths + [p])
  {
    DescribedIsKnownUpwards(ind, paths, p);
    forall dir ensures dir in Insert(ind, p) <==> IsDir(paths + [p], dir) {
      MorePaths(paths, p, dir);
      InsertKeys(ind, p, dir);
    }
    forall dir, name ensures Count(Entries(Insert(ind, p), dir), name) == Listed(paths + [p], dir, name) {
      MorePaths(paths, p, dir + [name]);
      CountSnoc(paths, p, dir + [name]);
      InsertCounts(ind, p, dir, name);
    }
  }

  /** A path is a key exactly when it is a directory of the archive; its list holds what is inside, so often. */
  lemma {:induction false} BuildDescribes(paths: seq<seq<string>>)
    ensures Describes(Build(paths), paths)
    decreases |paths|
  {
    if paths != [] {
      var front, p := paths[..|paths| - 1], paths[|paths| - 1];
      BuildDescribes(front);
      InsertDescribes(Build(front), front, p);
      assert front + [p] == paths;
    }
  }

  lemma {:induction false} ListedIffInside(paths: seq<seq<string>>, dir: seq<string>, name: string)
    ensures Listed(paths, dir, name) > 0 <==> Inside(paths, dir, name)
    ensures Inside(paths, dir, name) ==> IsDir(paths, dir)
  {
    var q := dir + [name];
    CountIn(paths, q);
    if i :| 0 <= i < |paths| && q <= paths[i] {
      assert dir < paths[i];
      assert paths[i] == q || q < paths[i];
    }
    if i :| 0 <= i < |paths| && q < paths[i] { assert q <= paths[i]; }
  }

  // ----- the index over path texts -----

  type TextIndex = map<string, seq<string>>

  function InsertText(ind: TextIndex, parts: seq<string>): TextIndex
    decreases |parts|
  {
    if parts == [] then ind
    else
      var dir, name := Join(parts[..|parts| - 1], SEP), parts[|parts| - 1];
      if dir in ind then ind[dir := ind[dir] + [name]] else InsertText(ind[dir := [name]], parts[..|parts| - 1])
  }

  function BuildText(names: seq<string>): TextIndex
    decreases |names|
  {
    if names == [] then map[] else InsertText(BuildText(names[..|names| - 1]), Split(names[|names| - 1], SEP))
  }

  datatype Cached = Unset | Set(ind: TextIndex)

  class ZipProvider {
    const zipinfo: seq<string>
    var dirindex: Cached

    constructor (zipinfo: seq<string>)
      ensures this.zipinfo == zipinfo && dirindex == Unset
    {
      this.zipinfo, dirindex := zipinfo, Unset;
    }

    ghost predicate Valid()
      reads this
    {
      dirindex.Set? ==> dirindex.ind == BuildText(zipinfo)
    }

    /** Builds the index on first use. */
    method Index() returns (ind: TextIndex)
      requires Valid()
      modifies this`dirindex
      ensures Valid() && dirindex.Set? && ind == BuildText(zipinfo)
    {
      if dirindex.Set? {
        return dirindex.ind;
      }
      ind := map[];
      for n := 0 to |zipinfo|
        invariant ind == BuildText(zipinfo[..n])
      {
        assert zipinfo[..n + 1][..n] == zipinfo[..n];
        var parts := Split(zipinfo[n], SEP);
        ghost var goal := InsertText(ind, parts);
        while parts != []
          invariant InsertText(ind, parts) == goal
          decreases |parts|
        {
          var last := |parts| - 1;
          var parent := Join(parts[..last], SEP);
          if parent in ind {
            ind := ind[parent := ind[parent] + [parts[last]]];
            break;
          } else {
            ind := ind[parent := [parts[last]]];
            parts := parts[..last];
          }
        }
        assert ind == goal;
      }
      assert zipinfo[..|zipinfo|] == zipinfo;
      dirindex := Set(ind);
    }
  }

  /** Components without separators. */
  predicate NoSep(dir: seq<string>) {
    forall i :: 0 <= i < |dir| ==> SEP !in dir[i]
  }

  /** The two directories whose text is empty: without any component, and with one empty component. */
  predicate Root(dir: seq<string>) {
    dir == [] || dir == [""]
  }

  /** Only these two have the same text. */
  lemma {:induction false} JoinTells(a: seq<string>, b: seq<string>)
    requires NoSep(a) && NoSep(b) && Join(a, SEP) == Join(b, SEP)
    ensures a == b || (Root(a) && Root(b))
  {
    assert Split("", SEP) == [""];
    if a != [] { SplitJoin(a, SEP); }
    if b != [] { SplitJoin(b, SEP); }
  }

  function TextEntries(ti: TextIndex, k: string): seq<string> {
    if k in ti then ti[k] else []
  }

  /**
   The text index has the keys and lists of the other one, except that the two roots share a
   list, in which one entry may have been skipped: the empty name, in front of `[""]`.
   */
  ghost predicate Mirrors(ti: TextIndex, ci: Index, skipped: bool) {
    MirrorsBelow(ti, ci) && KeysFrom(ti, ci) && MirrorsRoot(ti, ci, skipped)
  }

  ghost predicate MirrorsBelow(ti: TextIndex, ci: Index) {
    forall dir :: dir in ci ==> NoSep(dir) && Join(dir, SEP) in ti && (!Root(dir) ==> ti[Join(dir, SEP)] == ci[dir])
  }

  ghost predicate KeysFrom(ti: TextIndex, ci: Index) {
    forall k :: k in ti ==> exists dir :: dir in ci && Join(dir, SEP) == k
  }

  ghost predicate MirrorsRoot(ti: TextIndex, ci: Index, skipped: bool) {
    && (skipped ==> [""] in ci)
    && (forall n :: Count(TextEntries(ti, ""), n) == Count(Entries(ci, []), n) + Count(Entries(ci, [""]), n) - Gap(skipped, n))
  }

  function Gap(skipped: bool, name: string): nat {
    if skipped && name == "" then 1 else 0
  }

  lemma {:induction false} MirrorsKey(ti: TextIndex, ci: Index, dir: seq<string>)
    requires MirrorsBelow(ti, ci) && KeysFrom(ti, ci) && NoSep(dir)
    ensures !Root(dir) ==> (Join(dir, SEP) in ti <==> dir in ci)
    ensures Root(dir) ==> (Join(dir, SEP) in ti <==> [] in ci || [""] in ci)
  {
    if Join(dir, SEP) in ti {
      var d :| d in ci && Join(d, SEP) == Join(dir, SEP);
      JoinTells(d, dir);
    }
  }

  lemma {:induction false} UpdateKeys(ti: TextIndex, ci: Index, dir: seq<string>, texts: seq<string>, entries: seq<string>)
    requires KeysFrom(ti, ci)
    ensures KeysFrom(ti[Join(dir, SEP) := texts], ci[dir := entries])
  {
    var ti', ci' := ti[Join(dir, SEP) := texts], ci[dir := entries];
    forall k | k in ti' ensures exists d :: d in ci' && Join(d, SEP) == k {
      if k == Join(dir, SEP) {
        assert dir in ci';
      } else {
        var d :| d in ci && Join(d, SEP) == k;
        assert d in ci';
      }
    }
  }

  lemma {:induction false} UpdateBelow(ti: TextIndex, ci: Index, dir: seq<string>, texts: seq<string>, entries: seq<string>)
    requires MirrorsBelow(ti, ci) && NoSep(dir) && (!Root(dir) ==> texts == entries)
    ensures MirrorsBelow(ti[Join(dir, SEP) := texts], ci[dir := entries])
  {
    var ti', ci' := ti[Join(dir, SEP) := texts], ci[dir := entries];
    forall d | d in ci' ensures NoSep(d) && Join(d, SEP) in ti' && (!Root(d) ==> ti'[Join(d, SEP)] == ci'[d]) {
      if d != dir {
        if Join(d, SEP) == Join(dir, SEP) { JoinTells(d, dir); }
      }
    }
  }

  lemma {:induction false} MirrorsUpdate(ti: TextIndex, ci: Index, skipped: bool, dir: seq<string>, entries: seq<string>)
    requires Mirrors(ti, ci, skipped) && NoSep(dir) && !Root(dir)
    ensures Mirrors(ti[Join(dir, SEP) := entries], ci[dir := entries], skipped)
  {
    UpdateKeys(ti, ci, dir, entries, entries);
    UpdateBelow(ti, ci, dir, entries, entries);
    if Join(dir, SEP) == "" { JoinTells(dir, []); }
  }

  lemma {:induction false} RootAppend(ti: TextIndex, ci: Index, skipped: bool, dir: seq<string>, name: string)
    requires MirrorsRoot(ti, ci, skipped) && Root(dir)
    ensures MirrorsRoot(ti["" := TextEntries(ti, "") + [name]], ci[dir := Entries(ci, dir) + [name]], skipped)
  {
    var ti', ci' := ti["" := TextEntries(ti, "") + [name]], ci[dir := Entries(ci, dir) + [name]];
    var root, empty: seq<string> := [], [""];
    forall n ensures Count(TextEntries(ti', ""), n) == Count(Entries(ci', root), n) + Count(Entries(ci', empty), n) - Gap(skipped, n) {
      assert Count(TextEntries(ti, ""), n) == Count(Entries(ci, root), n) + Count(Entries(ci, empty), n) - Gap(skipped, n);
      CountSnoc(TextEntries(ti, ""), name, n);
      CountSnoc(Entries(ci, dir), name, n);
      assert root != empty;
    }
  }

  /** A name goes to the end of the list the roots share, and to the end of one root's own list. */
  lemma {:induction false} MirrorsAppend(ti: TextIndex, ci: Index, skipped: bool, dir: seq<string>, name: string)
    requires Mirrors(ti, ci, skipped) && Root(dir)
    ensures Mirrors(ti["" := TextEntries(ti, "") + [name]], ci[dir := Entries(ci, dir) + [name]], skipped)
  {
    assert Join(dir, SEP) == "";
    UpdateKeys(ti, ci, dir, TextEntries(ti, "") + [name], Entries(ci, dir) + [name]);
    UpdateBelow(ti, ci, dir, TextEntries(ti, "") + [name], Entries(ci, dir) + [name]);
    RootAppend(ti, ci, skipped, dir, name);
  }

  /** Here the walk over texts stops, and the empty name in front of `[""]` is skipped. */
  lemma {:induction false} MirrorsSkip(ti: TextIndex, ci: Index, skipped: bool)
    requires Mirrors(ti, ci, skipped) && !skipped && [] in ci && [""] in ci
    ensures Mirrors(ti, ci[[] := ci[[]] + [""]], true)
  {
    var ci' := ci[[] := ci[[]] + [""]];
    assert MirrorsBelow(ti, ci');
    forall k | k in ti ensures exists dir :: dir in ci' && Join(dir, SEP) == k {
      var dir :| dir in ci && Join(dir, SEP) == k;
      assert dir in ci';
    }
    forall n ensures Count(ci'[[]], n) == Count(ci[[]], n) + Gap(true, n) {
      CountSnoc(ci[[]], "", n);
    }
  }

  /** The walk of `parts` meets the text of `[""]` as a known directory, though `[""]` is new. */
  predicate Skips(ti: TextIndex, ci: Index, parts: seq<string>) {
    [""] < parts && "" in ti && [""] !in ci
  }

  lemma {:induction false} InsertAtRoot(ti: TextIndex, ci: Index, skipped: bool, name: string)
    requires Mirrors(ti, ci, skipped)
    ensures Mirrors(InsertText(ti, [name]), Insert(ci, [name]), skipped)
  {
    MirrorsAppend(ti, ci, skipped, [], name);
    InsertOne(ti, ci, name);
  }

  lemma {:induction false} InsertOne(ti: TextIndex, ci: Index, name: string)
    ensures InsertText(ti, [name]) == ti["" := TextEntries(ti, "") + [name]]
    ensures Insert(ci, [name]) == ci[[] := Entries(ci, []) + [name]]
  {
    var none: seq<string> := [];
    assert [name][..0] == none && none + [name] == [name] && Join(none, SEP) == "";
    assert Insert(ci[none := [name]], none) == ci[none := [name]];
    assert InsertText(ti["" := [name]], none) == ti["" := [name]];
  }

  lemma {:induction false} InsertBelowEmpty(ti: TextIndex, ci: Index, skipped: bool, name: string)
    requires Mirrors(ti, ci, skipped)
    ensures Mirrors(InsertText(ti, ["", name]), Insert(ci, ["", name]), skipped || Skips(ti, ci, ["", name]))
  {
    var dir := [""];
    assert ["", name][..1] == dir && [] + [name] == [name];
    assert dir < ["", name];
    MirrorsAppend(ti, ci, skipped, dir, name);
    MirrorsKey(ti, ci, dir);
    if dir !in ci {
      var ci' := ci[dir := [name]];
      if "" in ti {
        var none: seq<string> := [];
        assert dir[..0] == none;
        MirrorsSkip(ti["" := ti[""] + [name]], ci', skipped);
        assert Insert(ci', dir) == ci'[none := ci'[none] + [""]];
      } else {
        InsertAtRoot(ti["" := [name]], ci', skipped, "");
      }
    }
  }

  /** One step below the roots; it does not change what the walk meets further up. */
  lemma {:induction false} InsertBelow(ti: TextIndex, ci: Index, skipped: bool, dir: seq<string>, name: string)
    requires Mirrors(ti, ci, skipped) && NoSep(dir) && !Root(dir)
    ensures Join(dir, SEP) in ti <==> dir in ci
    ensures dir in ci ==> Mirrors(ti[Join(dir, SEP) := ti[Join(dir, SEP)] + [name]], ci[dir := ci[dir] + [name]], skipped)
    ensures dir !in ci ==> Mirrors(ti[Join(dir, SEP) := [name]], ci[dir := [name]], skipped)
  {
    MirrorsKey(ti, ci, dir);
    if dir in ci {
      MirrorsUpdate(ti, ci, skipped, dir, ci[dir] + [name]);
    } else {
      MirrorsUpdate(ti, ci, skipped, dir, [name]);
    }
  }

  lemma {:induction false} SkipsFurtherUp(ti: TextIndex, ci: Index, dir: seq<string>, name: string)
    requires NoSep(dir) && !Root(dir)
    ensures Skips(ti[Join(dir, SEP) := [name]], ci[dir := [name]], dir) <==> Skips(ti, ci, dir + [name])
  {
    if Join(dir, SEP) == "" { JoinTells(dir, []); }
    assert [""] < dir <==> [""] < dir + [name];
  }

  lemma {:induction false} InsertUnfolds(ti: TextIndex, ci: Index, dir: seq<string>, name: string)
    ensures InsertText(ti, dir + [name])
      == var k := Join(dir, SEP); if k in ti then ti[k := ti[k] + [name]] else InsertText(ti[k := [name]], dir)
    ensures Insert(ci, dir + [name]) == if dir in ci then ci[dir := ci[dir] + [name]] else Insert(ci[dir := [name]], dir)
  {
    assert (dir + [name])[..|dir|] == dir;
  }

  lemma {:induction false} InsertMirrors(ti: TextIndex, ci: Index, skipped: bool, parts: seq<string>)
    requires Mirrors(ti, ci, skipped) && NoSep(parts) && KnownUpwards(ci, parts)
    ensures Mirrors(InsertText(ti, parts), Insert(ci, parts), skipped || Skips(ti, ci, parts))
    decreases |parts|, 1
  {
    if parts != [] {
      var dir, name := parts[..|parts| - 1], parts[|parts| - 1];
      assert parts == dir + [name];
      if dir == [] {
        assert parts == [name];
        InsertAtRoot(ti, ci, skipped, name);
      } else if dir == [""] {
        assert parts == ["", name];
        InsertBelowEmpty(ti, ci, skipped, name);
      } else {
        InsertBelowMirrors(ti, ci, skipped, parts, dir, name);
      }
    }
  }

  lemma {:induction false} InsertBelowMirrors(ti: TextIndex, ci: Index, skipped: bool, parts: seq<string>, dir: seq<string>, name: string)
    requires Mirrors(ti, ci, skipped) && NoSep(parts) && KnownUpwards(ci, parts)
    requires parts == dir + [name] && !Root(dir)
    ensures Mirrors(InsertText(ti, parts), Insert(ci, parts), skipped || Skips(ti, ci, parts))
    decreases |parts|, 0
  {
    assert dir == parts[..|parts| - 1];
    assert NoSep(dir) by { assert forall i :: 0 <= i < |dir| ==> dir[i] == parts[i]; }
    InsertUnfolds(ti, ci, dir, name);
    InsertBelow(ti, ci, skipped, dir, name);
    if dir in ci {
      if [""] < parts { KnownAbove(ci, parts, [""]); }
    } else {
      SkipsFurtherUp(ti, ci, dir, name);
      StillKnownUpwards(ci, parts, [name]);
      InsertMirrors(ti[Join(dir, SEP) := [name]], ci[dir := [name]], skipped, dir);
    }
  }

  function SplitAll(names: seq<string>): (r: seq<seq<string>>)
    ensures |r| == |names|
  {
    seq(|names|, i requires 0 <= i < |names| => Split(names[i], SEP))
  }

  /** The empty name in front of `[""]` is never listed: some name starts with a separator, but not the first one. */
  ghost predicate Skipped(paths: seq<seq<string>>) {
    IsDir(paths, [""]) && !([""] < paths[0])
  }

  lemma {:induction false} SkippedStep(ti: TextIndex, ci: Index, paths: seq<seq<string>>, p: seq<string>)
    requires Describes(ci, paths) && Mirrors(ti, ci, Skipped(paths)) && (paths != [] ==> paths[0] != [])
    ensures Skipped(paths + [p]) <==> Skipped(paths) || Skips(ti, ci, p)
  {
    MorePaths(paths, p, [""]);
    MirrorsKey(ti, ci, []);
    if paths == [] {
      assert (paths + [p])[0] == p;
      assert [] !in ci && [""] !in ci;
    } else {
      assert (paths + [p])[0] == paths[0];
      assert IsDir(paths, []) by { assert [] < paths[0]; }
    }
  }

  lemma BuildSnoc(paths: seq<seq<string>>, p: seq<string>)
    ensures Build(paths + [p]) == Insert(Build(paths), p)
  {
    assert (paths + [p])[..|paths|] == paths;
  }

  lemma {:induction false} MirrorsStep(ti: TextIndex, paths: seq<seq<string>>, p: seq<string>)
    requires Mirrors(ti, Build(paths), Skipped(paths)) && (paths != [] ==> paths[0] != []) && NoSep(p)
    ensures Mirrors(InsertText(ti, p), Build(paths + [p]), Skipped(paths + [p]))
  {
    BuildDescribes(paths);
    DescribedIsKnownUpwards(Build(paths), paths, p);
    InsertMirrors(ti, Build(paths), Skipped(paths), p);
    SkippedStep(ti, Build(paths), paths, p);
    BuildSnoc(paths, p);
  }

  lemma SplitAllSnoc(names: seq<string>)
    requires names != []
    ensures SplitAll(names) == SplitAll(names[..|names| - 1]) + [Split(names[|names| - 1], SEP)]
  {
  }

  lemma {:induction false} BuildMirrors(names: seq<string>)
    ensures Mirrors(BuildText(names), Build(SplitAll(names)), Skipped(SplitAll(names)))
    decreases |names|
  {
    if names != [] {
      var front, p := names[..|names| - 1], Split(names[|names| - 1], SEP);
      BuildMirrors(front);
      SplitHasNoSep(names[|names| - 1], SEP);
      MirrorsStep(BuildText(front), SplitAll(front), p);
      SplitAllSnoc(names);
    }
  }

  /** A text is a key exactly when it is a directory on the way to some archived name. */
  lemma {:induction false} KeysAreDirectories(names: seq<string>, k: string)
    ensures k in BuildText(names) <==> exists dir :: IsDir(SplitAll(names), dir) && Join(dir, SEP) == k
  {
    var paths := SplitAll(names);
    BuildMirrors(names);
    BuildDescribes(paths);
    if k in BuildText(names) {
      var dir :| dir in Build(paths) && Join(dir, SEP) == k;
      assert IsDir(paths, dir);
    }
    if dir :| IsDir(paths, dir) && Join(dir, SEP) == k {
      assert dir in Build(paths);
    }
  }

  /** How often the text index lists a name: the two roots share a list. */
  ghost function EntryCount(paths: seq<seq<string>>, dir: seq<string>, name: string): int {
    if Root(dir) then Listed(paths, [], name) + Listed(paths, [""], name) - Gap(Skipped(paths), name)
    else Listed(paths, dir, name)
  }

  /** For all archived names: how often a directory lists a name. */
  lemma {:induction false} EntriesAreCounted(names: seq<string>, dir: seq<string>, name: string)
    requires IsDir(SplitAll(names), dir)
    ensures Join(dir, SEP) in BuildText(names)
    ensures Count(BuildText(names)[Join(dir, SEP)], name) == EntryCount(SplitAll(names), dir, name)
  {
    var paths := SplitAll(names);
    BuildMirrors(names);
    BuildDescribes(paths);
    assert dir in Build(paths);
    if Root(dir) {
      assert Count(Entries(Build(paths), []), name) == Listed(paths, [], name);
      assert Count(Entries(Build(paths), [""]), name) == Listed(paths, [""], name);
      assert TextEntries(BuildText(names), "") == BuildText(names)[Join(dir, SEP)];
    } else {
      assert Count(Entries(Build(paths), dir), name) == Listed(paths, dir, name);
    }
  }

  // ----- when the lists are exact -----

  /** A directory has a list, with the name in it exactly if that is a next component. */
  ghost predicate ListedRight(names: seq<string>, dir: seq<string>, name: string) {
    Join(dir, SEP) in BuildText(names) && (name in BuildText(names)[Join(dir, SEP)] <==> Inside(SplitAll(names), dir, name))
  }

  ghost predicate EntriesExact(names: seq<string>) {
    forall dir, name :: IsDir(SplitAll(names), dir) ==> ListedRight(names, dir, name)
  }

  /** If both roots are directories, the same names are inside them. */
  ghost predicate RootsAgree(paths: seq<seq<string>>) {
    IsDir(paths, [""]) ==> forall n :: Inside(paths, [], n) <==> Inside(paths, [""], n)
  }

  /** Only the roots' list can be wrong, and only if there are two roots and they differ. */
  lemma {:induction false} EntriesAreInside(names: seq<string>, dir: seq<string>, name: string)
    requires IsDir(SplitAll(names), dir) && (Root(dir) ==> RootsAgree(SplitAll(names)))
    ensures Join(dir, SEP) in BuildText(names)
    ensures name in BuildText(names)[Join(dir, SEP)] <==> Inside(SplitAll(names), dir, name)
  {
    var paths := SplitAll(names);
    EntriesAreCounted(names, dir, name);
    CountIn(BuildText(names)[Join(dir, SEP)], name);
    ListedIffInside(paths, dir, name);
    if Root(dir) { RootCounts(paths, dir, name); }
  }

  lemma {:induction false} RootCounts(paths: seq<seq<string>>, dir: seq<string>, name: string)
    requires IsDir(paths, dir) && Root(dir) && RootsAgree(paths)
    ensures EntryCount(paths, dir, name) > 0 <==> Inside(paths, dir, name)
  {
    ListedIffInside(paths, [], name);
    ListedIffInside(paths, [""], name);
    if IsDir(paths, [""]) {
      assert Inside(paths, [], name) <==> Inside(paths, [""], name);
      assert [] + [""] == [""] && Listed(paths, [], "") > 0;
    }
  }

  /** The lists are exact if and only if the two roots have the same names inside, should both be there. */
  lemma {:induction false} EntriesExactIff(names: seq<string>)
    ensures EntriesExact(names) <==> RootsAgree(SplitAll(names))
  {
    var paths := SplitAll(names);
    if RootsAgree(paths) {
      forall dir, name | IsDir(paths, dir) ensures ListedRight(names, dir, name) {
        EntriesAreInside(names, dir, name);
      }
    }
    if EntriesExact(names) && IsDir(paths, [""]) {
      AboveIsDir(paths, [""], 0);
      var root: seq<string> := [];
      assert [""][..0] == root && Join(root, SEP) == Join([""], SEP);
      forall n ensures Inside(paths, root, n) <==> Inside(paths, [""], n) {
        assert ListedRight(names, root, n) && ListedRight(names, [""], n);
      }
    }
  }

  /** No archived name starts with a separator; further empty components may be there. */
  predicate RelativeNames(names: seq<string>) {
    forall i :: 0 <= i < |names| && names[i] != "" ==> names[i][0] != SEP
  }

  lemma {:induction false} RelativeHasOneRoot(names: seq<string>)
    requires RelativeNames(names)
    ensures !IsDir(SplitAll(names), [""])
  {
    forall i | 0 <= i < |names| ensures !([""] < SplitAll(names)[i]) {
      var name := names[i];
      if name != "" {
        assert SplitAll(names)[i][0] == [name[0]] + Split(name[1..], SEP)[0];
      }
    }
  }

  lemma {:induction false} RelativeNamesAreExact(names: seq<string>)
    ensures RelativeNames(names) ==> EntriesExact(names)
  {
    if RelativeNames(names) {
      RelativeHasOneRoot(names);
      EntriesExactIff(names);
    }
  }

  // ----- when a list holds a name twice -----

  ghost predicate AllListsDistinct(ti: TextIndex) {
    forall k :: k in ti ==> Distinct(ti[k])
  }

  ghost predicate AllOnce(paths: seq<seq<string>>) {
    forall dir, name :: IsDir(paths, dir) ==> EntryCount(paths, dir, name) <= 1
  }

  lemma {:induction false} DistinctIffOnce(names: seq<string>)
    ensures AllListsDistinct(BuildText(names)) <==> AllOnce(SplitAll(names))
  {
    var ti, paths := BuildText(names), SplitAll(names);
    if AllListsDistinct(ti) {
      forall dir, name | IsDir(paths, dir) ensures EntryCount(paths, dir, name) <= 1 {
        EntriesAreCounted(names, dir, name);
        DistinctIffCounts(ti[Join(dir, SEP)]);
      }
    }
    if AllOnce(paths) {
      forall k | k in ti ensures Distinct(ti[k]) {
        KeysAreDirectories(names, k);
        var dir :| IsDir(paths, dir) && Join(dir, SEP) == k;
        forall name ensures Count(ti[k], name) <= 1 { EntriesAreCounted(names, dir, name); }
        DistinctIffCounts(ti[k]);
      }
    }
  }

  /** One path is a directory on the way to another. */
  ghost predicate Nested(paths: seq<seq<string>>) {
    exists i, j :: 0 <= i < |paths| && 0 <= j < |paths| && paths[i] < paths[j]
  }

  ghost predicate NestedAt(paths: seq<seq<string>>, q: seq<string>) {
    q in paths && IsDir(paths, q)
  }

  ghost predicate NestedBelowRoots(paths: seq<seq<string>>) {
    exists q :: q != [""] && NestedAt(paths, q)
  }

  /** No name but the empty one is inside both roots. */
  ghost predicate RootsApart(paths: seq<seq<string>>) {
    forall n :: n != "" ==> !(Inside(paths, [], n) && Inside(paths, [""], n))
  }

  function Truth(b: bool): nat {
    if b then 1 else 0
  }

  /**
   What puts the empty name into the roots' list: an empty archived name, one that starts
   with two separators or is a single one, and a first name that starts with a separator.
   */
  ghost function EmptyEntries(paths: seq<seq<string>>): nat {
    Truth([""] in paths) + Truth(Inside(paths, [""], "")) + Truth(paths != [] && [""] < paths[0])
  }

  lemma {:induction false} ListedOnce(paths: seq<seq<string>>, dir: seq<string>, name: string)
    requires Distinct(paths)
    ensures Listed(paths, dir, name) == Truth(dir + [name] in paths) + Truth(IsDir(paths, dir + [name]))
  {
    DistinctIffCounts(paths);
    CountIn(paths, dir + [name]);
    assert Count(paths, dir + [name]) <= 1;
  }

  lemma {:induction false} RootOnce(paths: seq<seq<string>>, name: string)
    requires Distinct(paths) && name != ""
    ensures EntryCount(paths, [], name) <= 1
      <==> !NestedAt(paths, [name]) && !NestedAt(paths, ["", name]) && !(Inside(paths, [], name) && Inside(paths, [""], name))
  {
    assert [] + [name] == [name] && [""] + [name] == ["", name];
    ListedOnce(paths, [], name);
    ListedOnce(paths, [""], name);
    ListedIffInside(paths, [], name);
    ListedIffInside(paths, [""], name);
  }

  lemma {:induction false} EmptyOnce(paths: seq<seq<string>>)
    requires Distinct(paths)
    ensures EntryCount(paths, [], "") <= 1 <==> !NestedAt(paths, ["", ""]) && EmptyEntries(paths) <= 1
  {
    assert [] + [""] == [""] && [""] + [""] == ["", ""];
    ListedOnce(paths, [], "");
    ListedOnce(paths, [""], "");
    ListedIffInside(paths, [""], "");
    if paths != [] && [""] < paths[0] { assert IsDir(paths, [""]); }
  }

  lemma {:induction false} RootsOnceIff(paths: seq<seq<string>>)
    requires Distinct(paths) && !NestedBelowRoots(paths)
    ensures (forall name :: EntryCount(paths, [], name) <= 1) <==> RootsApart(paths) && EmptyEntries(paths) <= 1
  {
    EmptyOnce(paths);
    assert !NestedAt(paths, ["", ""]);
    forall name | name != ""
      ensures EntryCount(paths, [], name) <= 1 <==> !(Inside(paths, [], name) && Inside(paths, [""], name))
    {
      RootOnce(paths, name);
      assert !NestedAt(paths, [name]) && !NestedAt(paths, ["", name]);
    }
  }

  lemma {:induction false} BelowOnceIff(paths: seq<seq<string>>)
    requires Distinct(paths) && AllOnce(paths) && [] !in paths
    ensures !NestedBelowRoots(paths)
  {
    if q :| q != [""] && NestedAt(paths, q) {
      var dir, name := q[..|q| - 1], q[|q| - 1];
      assert q == dir + [name];
      AboveIsDir(paths, q, |q| - 1);
      ListedOnce(paths, dir, name);
      assert EntryCount(paths, dir, name) <= 1;
      if dir == [] { assert q == [name]; RootOnce(paths, name); }
      else if dir == [""] { assert q == ["", name]; if name == "" { EmptyOnce(paths); } else { RootOnce(paths, name); } }
    }
  }

  lemma {:induction false} AllOnceIff(paths: seq<seq<string>>)
    requires Distinct(paths) && [] !in paths
    ensures AllOnce(paths) <==> !NestedBelowRoots(paths) && RootsApart(paths) && EmptyEntries(paths) <= 1
  {
    if AllOnce(paths) { BelowOnceIff(paths); }
    if !NestedBelowRoots(paths) {
      RootsOnceIff(paths);
      if AllOnce(paths) {
        OneRootIsThere(paths);
      } else if RootsApart(paths) && EmptyEntries(paths) <= 1 {
        forall dir, name | IsDir(paths, dir) ensures EntryCount(paths, dir, name) <= 1 {
          if Root(dir) {
            assert EntryCount(paths, dir, name) == EntryCount(paths, [], name);
          } else {
            ListedOnce(paths, dir, name);
            assert !NestedAt(paths, dir + [name]);
          }
        }
      }
    }
  }

  lemma {:induction false} OneRootIsThere(paths: seq<seq<string>>)
    requires AllOnce(paths) && [] !in paths
    ensures forall name :: EntryCount(paths, [], name) <= 1
  {
    if paths == [] {
    } else {
      assert [] < paths[0];
      assert IsDir(paths, []);
    }
  }

  lemma {:induction false} SplitAllDistinct(names: seq<string>)
    requires Distinct(names)
    ensures Distinct(SplitAll(names)) && [] !in SplitAll(names)
  {
    forall i, j | 0 <= i < j < |names| ensures SplitAll(names)[i] != SplitAll(names)[j] {
      JoinSplit(names[i], SEP);
      JoinSplit(names[j], SEP);
    }
  }

  /**
   No list holds a name twice exactly when no archived name is a directory of another, no name
   is inside both roots, and at most one thing puts an empty name into the roots' list.  The
   names of an archive are the keys of a dictionary, hence different.
   */
  lemma {:induction false} ListsDistinctIff(names: seq<string>)
    requires Distinct(names)
    ensures var paths := SplitAll(names);
      AllListsDistinct(BuildText(names)) <==> !NestedBelowRoots(paths) && RootsApart(paths) && EmptyEntries(paths) <= 1
  {
    SplitAllDistinct(names);
    DistinctIffOnce(names);
    AllOnceIff(SplitAll(names));
  }

  lemma {:induction false} NestedIffBelow(paths: seq<seq<string>>)
    requires !IsDir(paths, [""])
    ensures Nested(paths) <==> NestedBelowRoots(paths)
  {
    if i, j :| 0 <= i < |paths| && 0 <= j < |paths| && paths[i] < paths[j] {
      assert NestedAt(paths, paths[i]);
    }
    if q :| q != [""] && NestedAt(paths, q) {
      var i :| 0 <= i < |paths| && paths[i] == q;
      var j :| 0 <= j < |paths| && q < paths[j];
      assert paths[i] < paths[j];
    }
  }

  /** With names that do not start with a separator only nesting repeats a name. */
  lemma {:induction false} ListsRepeatIffNested(names: seq<string>)
    requires Distinct(names)
    ensures RelativeNames(names) ==> (AllListsDistinct(BuildText(names)) <==> !Nested(SplitAll(names)))
  {
    if RelativeNames(names) {
      var paths := SplitAll(names);
      ListsDistinctIff(names);
      RelativeHasOneRoot(names);
      NestedIffBelow(paths);
      forall n ensures !Inside(paths, [""], n) { ListedIffInside(paths, [""], n); }
      assert paths != [] && [""] < paths[0] ==> IsDir(paths, [""]);
    }
  }

  /** A name that starts with a separator lists its next component in the root, which is another directory. */
  lemma {:induction false} AbsoluteNameMixesRoot()
    ensures var names, paths := ["/x"], SplitAll(["/x"]);
      && "" in BuildText(names) && "x" in BuildText(names)[""]
      && IsDir(paths, []) && Join([], SEP) == "" && !Inside(paths, [], "x")
  {
    var names, parts, root := ["/x"], ["", "x"], [""];
    assert "/x"[1..] == "x" && "x"[1..] == "" && Split("", SEP) == [""];
    assert ['x'] + "" == "x";
    assert Split("x", SEP) == [['x'] + ""] + [];
    assert Split("x", SEP)[0] == "x" && |Split("x", SEP)| == 1;
    assert Split("/x", SEP) == parts;
    assert names[..0] == [] && BuildText(names) == InsertText(map[], parts);
    var ind: TextIndex := map["" := ["x"]];
    var none: seq<string> := [];
    assert parts[..1] == root && root[..0] == none && Join(none, SEP) == "" && Join(root, SEP) == "";
    assert InsertText(map[], parts) == InsertText(ind, root);
    assert InsertText(ind, root) == ind["" := ind[""] + [""]];
    assert SplitAll(names)[0] == parts && none < parts;
    assert none + ["x"] == ["x"] && parts[0] == "";
  }
}
