/**
 What a sequence of raw events means for the tables and for what is reported: a rename told by
 two events with whatever comes between them, the paths of events, new and forgotten directories.
 */
module InotifyMoves {
  import opened Common
  import opened Texts
  import opened InotifyWatches
  import opened InotifyReader

  // ----- mask bits, as the kernel numbers them -----

  predicate MovedFrom(raw: RawEvent) {
    raw.mask & 0x40 != 0
  }

  predicate MovedTo(raw: RawEvent) {
    raw.mask & 0x80 != 0
  }

  predicate Ignored(raw: RawEvent) {
    raw.mask & 0x8000 != 0
  }

  predicate NewDirectory(raw: RawEvent) {
    raw.mask & 0x4000_0000 != 0 && raw.mask & 0x100 != 0
  }

  // ----- paths -----

  /** A file of a directory; only the path of the root ends in a separator. */
  function Child(dir: string, name: string): string {
    if dir != "" && dir[|dir| - 1] != '/' then dir + "/" + name else dir + name
  }

  /** Names as the kernel gives them. */
  predicate FileName(name: string) {
    name != "" && '/' !in name
  }

  lemma JoinIsChild(dir: string, name: string)
    requires '/' !in name
    ensures PathJoin(dir, name) == Child(dir, name)
  {
  }

  /** An event is reported once, as it was read, at its path; what it simulates comes after it. */
  lemma EventIsReported(t: Tables, raw: RawEvent, recursive: bool, order: seq<string>, added: AddResult, walk: seq<WalkItem>)
    requires raw.wd != -1 && !Ignored(raw) && '/' !in raw.name
    requires ProcessOne(t, raw, recursive, order, added, walk).1.Emitted?
    ensures var events := ProcessOne(t, raw, recursive, order, added, walk).1.events;
      && raw.wd in t.watches.pathForWd && |events| >= 1
      && events[0].wd == raw.wd && events[0].mask == raw.mask && events[0].cookie == raw.cookie && events[0].name == raw.name
      && (raw.name != "" ==> events[0].srcPath == Child(t.watches.pathForWd[raw.wd], raw.name))
      && (raw.name == "" && !MovedTo(raw) ==> events[0].srcPath == t.watches.pathForWd[raw.wd])
      && (!recursive || raw.mask & 0x100 == 0 ==> |events| == 1)
  {
    JoinIsChild(t.watches.pathForWd[raw.wd], raw.name);
  }

  // ----- a rename in two events -----

  function NextAll(t: Tables, recursive: bool, inputs: seq<Input>): Tables
    decreases |inputs|
  {
    if inputs == [] then t else Next(NextAll(t, recursive, inputs[..|inputs| - 1]), recursive, inputs[|inputs| - 1])
  }

  /** No event of these is an IN_MOVED_FROM with this cookie. */
  predicate NoSource(inputs: seq<Input>, cookie: nat) {
    forall i :: 0 <= i < |inputs| && inputs[i].ReadInput? && inputs[i].raw.cookie == cookie ==> !MovedFrom(inputs[i].raw)
  }

  lemma {:induction false} SourceIsRemembered(t: Tables, recursive: bool, inputs: seq<Input>, cookie: nat)
    requires NoSource(inputs, cookie)
    ensures cookie in NextAll(t, recursive, inputs).moves <==> cookie in t.moves
    ensures cookie in t.moves ==> NextAll(t, recursive, inputs).moves[cookie] == t.moves[cookie]
    decreases |inputs|
  {
    if inputs != [] {
      var front, last := inputs[..|inputs| - 1], inputs[|inputs| - 1];
      SourceIsRemembered(t, recursive, front, cookie);
      NextRemembers(NextAll(t, recursive, front), recursive, last, cookie);
    }
  }

  lemma {:induction false} NextRemembers(t: Tables, recursive: bool, input: Input, cookie: nat)
    requires NoSource([input], cookie)
    ensures cookie in Next(t, recursive, input).moves <==> cookie in t.moves
    ensures cookie in t.moves ==> Next(t, recursive, input).moves[cookie] == t.moves[cookie]
  {
    assert [input][0] == input;
  }

  /**
   An IN_MOVED_FROM, then whatever happens that is no other IN_MOVED_FROM with its cookie, then
   the IN_MOVED_TO.  With `src` and `dst` the files that the two events name: if `src` is watched
   by then its watch is recorded at `dst`; with subdirectories everything under `src` is recorded
   under `dst` and nothing else changes, exactly if no watch inside has the text of `src` again and
   no two of these places coincide.
   */
  lemma {:induction false} RenameInTwoEvents(t: Tables, recursive: bool, from: Input, between: seq<Input>, to: Input)
    requires from.ReadInput? && MovedFrom(from.raw) && from.raw.wd != -1 && FileName(from.raw.name)
    requires to.ReadInput? && MovedTo(to.raw) && !MovedFrom(to.raw) && to.raw.wd != -1 && FileName(to.raw.name)
    requires !Ignored(to.raw) && to.raw.mask & 0x100 == 0
    requires from.raw.cookie == to.raw.cookie && NoSource(between, to.raw.cookie)
    requires from.raw.wd in t.watches.pathForWd
    requires var w := NextAll(Next(t, recursive, from), recursive, between).watches;
      && Consistent(w) && to.raw.wd in w.pathForWd
      && var src, dst := Child(t.watches.pathForWd[from.raw.wd], from.raw.name), Child(w.pathForWd[to.raw.wd], to.raw.name);
        ProperRename(w, src, dst) && (recursive ==> Enumerates(to.order, Move(w, src, dst)))
    ensures var m := NextAll(Next(t, recursive, from), recursive, between);
      var w, w' := m.watches, Next(m, recursive, to).watches;
      var src, dst := Child(t.watches.pathForWd[from.raw.wd], from.raw.name), Child(w.pathForWd[to.raw.wd], to.raw.name);
      && (recursive ==>
            (Placed(w.wdForPath, w'.wdForPath, p => Target(p, src, dst)) <==> SourceOccursOnce(w, src) && TargetsApart(w, src, dst)))
      && (recursive && Placed(w.wdForPath, w'.wdForPath, p => Target(p, src, dst)) ==> KnownAtTargets(w, w', src, dst))
      && (!recursive ==> MovedAlone(w, w', src, dst))
  {
    var m := NextAll(Next(t, recursive, from), recursive, between);
    var w := m.watches;
    var src, dst := Child(t.watches.pathForWd[from.raw.wd], from.raw.name), Child(w.pathForWd[to.raw.wd], to.raw.name);
    JoinIsChild(t.watches.pathForWd[from.raw.wd], from.raw.name);
    JoinIsChild(w.pathForWd[to.raw.wd], to.raw.name);
    SourceIsRemembered(Next(t, recursive, from), recursive, between, to.raw.cookie);
    MoveIsCompleted(m, recursive, to, src);
    if recursive {
      RenameIsExact(w, src, dst, to.order);
    }
  }

  lemma {:induction false} MoveIsCompleted(m: Tables, recursive: bool, to: Input, src: string)
    requires to.ReadInput? && MovedTo(to.raw) && !MovedFrom(to.raw) && to.raw.wd != -1 && FileName(to.raw.name)
    requires !Ignored(to.raw) && to.raw.mask & 0x100 == 0 && to.raw.wd in m.watches.pathForWd
    requires to.raw.cookie in m.moves && m.moves[to.raw.cookie].srcPath == src && src in m.watches.wdForPath
    ensures Next(m, recursive, to).watches
      == Rename(m.watches, src, Child(m.watches.pathForWd[to.raw.wd], to.raw.name), recursive, to.order)
  {
    JoinIsChild(m.watches.pathForWd[to.raw.wd], to.raw.name);
  }

  /** Only the watch of `src` itself is recorded elsewhere. */
  ghost predicate MovedAlone(w: Watches, w': Watches, src: string, dst: string)
    requires src in w.wdForPath
  {
    && (forall p :: p in w'.wdForPath <==> p == dst || (p in w.wdForPath && p != src))
    && (forall p :: p in w'.wdForPath ==> w'.wdForPath[p] == w.wdForPath[if p == dst then src else p])
    && w'.pathForWd == w.pathForWd[w.wdForPath[src] := dst]
  }

  /** Without an IN_MOVED_FROM with its cookie an IN_MOVED_TO moves no watch. */
  lemma {:induction false} UnknownSourceMovesNothing(recursive: bool, inputs: seq<Input>, to: Input)
    requires to.ReadInput? && MovedTo(to.raw) && !MovedFrom(to.raw) && !Ignored(to.raw) && to.raw.mask & 0x100 == 0
    requires NoSource(inputs, to.raw.cookie)
    ensures Next(RunInputs(recursive, inputs), recursive, to).watches == RunInputs(recursive, inputs).watches
  {
    var none := Tables(Watches(map[], map[]), map[]);
    RunIsNextAll(recursive, inputs);
    SourceIsRemembered(none, recursive, inputs, to.raw.cookie);
  }

  lemma {:induction false} RunIsNextAll(recursive: bool, inputs: seq<Input>)
    ensures RunInputs(recursive, inputs) == NextAll(Tables(Watches(map[], map[]), map[]), recursive, inputs)
    decreases |inputs|
  {
    if inputs != [] { RunIsNextAll(recursive, inputs[..|inputs| - 1]); }
  }

  // ----- what is forgotten -----

  /** An ignored descriptor is forgotten, and its path if that has this descriptor still; nothing else. */
  lemma IgnoredIsForgotten(t: Tables, raw: RawEvent, recursive: bool, order: seq<string>, added: AddResult, walk: seq<WalkItem>)
    requires raw.wd != -1 && raw.wd in t.watches.pathForWd && Ignored(raw) && !MovedFrom(raw) && !MovedTo(raw)
    ensures var w, w' := t.watches, ProcessOne(t, raw, recursive, order, added, walk).0.watches;
      && (forall d :: d in w'.pathForWd <==> d in w.pathForWd && d != raw.wd)
      && (forall d :: d in w'.pathForWd ==> w'.pathForWd[d] == w.pathForWd[d])
      && (forall p :: p in w'.wdForPath <==> p in w.wdForPath && !(p == w.pathForWd[raw.wd] && w.wdForPath[p] == raw.wd))
      && (forall p :: p in w'.wdForPath ==> w'.wdForPath[p] == w.wdForPath[p])
  {
  }

  /** So is a removed path with its descriptor. */
  lemma RemovedIsForgotten(t: Tables, recursive: bool, path: string)
    requires path in t.watches.wdForPath
    ensures var w, w' := t.watches, Next(t, recursive, RemoveInput(path)).watches;
      && (forall p :: p in w'.wdForPath <==> p in w.wdForPath && p != path)
      && (forall p :: p in w'.wdForPath ==> w'.wdForPath[p] == w.wdForPath[p])
      && (forall d :: d in w'.pathForWd <==> d in w.pathForWd && d != w.wdForPath[path])
      && (forall d :: d in w'.pathForWd ==> w'.pathForWd[d] == w.pathForWd[d])
  {
  }

  // ----- a new directory -----

  /** The descriptor that a path has when the walk comes to entry `n`: the last one given to it. */
  function DescriptorBefore(w: Watches, items: seq<WalkItem>, n: nat, path: string): Option<int>
    requires n <= |items|
  {
    if n == 0 then if path in w.wdForPath then Some(w.wdForPath[path]) else None
    else if items[n - 1].WalkDir? && items[n - 1].path == path && items[n - 1].result.Watch? then Some(items[n - 1].result.wd)
    else if items[n - 1].WalkDir? && items[n - 1].path == path && items[n - 1].result.Denied? then Some(-1)
    else DescriptorBefore(w, items, n - 1, path)
  }

  /** A directory is reported unless its watch was refused, a file always. */
  predicate IsSimulated(item: WalkItem) {
    item.WalkFile? || !item.result.Refused?
  }

  function SimulatedCount(items: seq<WalkItem>): nat {
    if items == [] then 0 else (if IsSimulated(items[0]) then 1 else 0) + SimulatedCount(items[1..])
  }

  /** The event simulated for entry `i`. */
  ghost predicate SimulatedFor(w: Watches, items: seq<WalkItem>, i: nat, e: InotifyEvent)
    requires i < |items|
  {
    && e.cookie == 0 && e.name == items[i].name && e.srcPath == items[i].path
    && (items[i].WalkDir? ==> e.mask == 0x4000_0100 && Some(e.wd) == DescriptorBefore(w, items, i + 1, items[i].path))
    && (items[i].WalkFile? ==> e.mask == 0x100 && Some(e.wd) == DescriptorBefore(w, items, i, items[i].parent))
  }

  lemma {:induction false} DescriptorAfterFirst(w: Watches, items: seq<WalkItem>, n: nat, path: string)
    requires items != [] && n < |items|
    ensures var first := items[0];
      var w' := if first.WalkDir? && !first.result.Refused? then Add(w, first.path, Recorded(first.result)) else w;
      DescriptorBefore(w', items[1..], n, path) == DescriptorBefore(w, items, n + 1, path)
    decreases n
  {
    if n > 0 {
      DescriptorAfterFirst(w, items, n - 1, path);
      assert items[1..][n - 1] == items[n];
    }
  }

  /**
   The contents of a new directory: every entry that can be watched is reported in the order of
   the walk, a file under the descriptor its directory has by then, and every path ends up with
   the last descriptor given to it.
   */
  lemma {:induction false} ContentsAreReported(w: Watches, items: seq<WalkItem>)
    requires Simulate(w, items).1.Emitted?
    ensures |Simulate(w, items).1.events| == SimulatedCount(items)
    ensures forall i :: 0 <= i < |items| && IsSimulated(items[i]) ==>
      SimulatedCount(items[..i]) < SimulatedCount(items)
      && SimulatedFor(w, items, i, Simulate(w, items).1.events[SimulatedCount(items[..i])])
    ensures forall p :: RecordedFor(Simulate(w, items).0, p) == DescriptorBefore(w, items, |items|, p)
    decreases |items|
  {
    if items != [] {
      var first, rest := items[0], items[1..];
      var w' := if first.WalkDir? && !first.result.Refused? then Add(w, first.path, Recorded(first.result)) else w;
      ContentsAreReported(w', rest);
      var events, more := Simulate(w, items).1.events, Simulate(w', rest).1.events;
      forall p ensures RecordedFor(Simulate(w, items).0, p) == DescriptorBefore(w, items, |items|, p) {
        DescriptorAfterFirst(w, items, |rest|, p);
      }
      forall i | 0 <= i < |items| && IsSimulated(items[i])
        ensures SimulatedCount(items[..i]) < SimulatedCount(items)
          && SimulatedFor(w, items, i, events[SimulatedCount(items[..i])])
      {
        if i > 0 {
          assert items[..i][1..] == rest[..i - 1] && items[..i][0] == first && rest[i - 1] == items[i];
          LaterIsSimulated(w, items, w', i, more[SimulatedCount(rest[..i - 1])]);
        } else {
          assert items[..0] == [];
        }
      }
    }
  }

  lemma {:induction false} LaterIsSimulated(w: Watches, items: seq<WalkItem>, w': Watches, i: nat, e: InotifyEvent)
    requires 0 < i < |items|
    requires w' == if items[0].WalkDir? && !items[0].result.Refused? then Add(w, items[0].path, Recorded(items[0].result)) else w
    requires SimulatedFor(w', items[1..], i - 1, e)
    ensures SimulatedFor(w, items, i, e)
  {
    assert items[1..][i - 1] == items[i];
    if items[i].WalkDir? {
      DescriptorAfterFirst(w, items, i, items[i].path);
    } else {
      DescriptorAfterFirst(w, items, i - 1, items[i].parent);
    }
  }

  function RecordedFor(w: Watches, path: string): Option<int> {
    if path in w.wdForPath then Some(w.wdForPath[path]) else None
  }

  /** A directory created in a recursively watched one is watched, and its contents are simulated after its event. */
  lemma NewDirectoryIsWatched(t: Tables, raw: RawEvent, order: seq<string>, wd: nat, walk: seq<WalkItem>)
    requires raw.wd != -1 && raw.wd in t.watches.pathForWd && FileName(raw.name)
    requires NewDirectory(raw) && !Ignored(raw) && !MovedFrom(raw) && !MovedTo(raw)
    ensures var path := Child(t.watches.pathForWd[raw.wd], raw.name);
      var w := Watches(t.watches.wdForPath[path := wd], t.watches.pathForWd[wd := path]);
      var (t', o) := ProcessOne(t, raw, true, order, Watch(wd), walk);
      && t' == t.(watches := Simulate(w, walk).0)
      && (o.Emitted? <==> Simulate(w, walk).1.Emitted?)
      && (o.Emitted? ==> o.events == [InotifyEvent(raw.wd, raw.mask, raw.cookie, raw.name, path)] + Simulate(w, walk).1.events)
  {
    JoinIsChild(t.watches.pathForWd[raw.wd], raw.name);
  }
}
