/**
 Reading raw inotify events: what each of them does to the watch tables, which events come
 out, and when a table lookup fails.
 */
module InotifyReader {
  import opened Common
  import opened Texts
  import opened InotifyWatches

  const IN_MOVED_FROM: bv32 := 0x00000040
  const IN_MOVED_TO: bv32 := 0x00000080
  const IN_CREATE: bv32 := 0x00000100
  const IN_DELETE_SELF: bv32 := 0x00000400
  const IN_MOVE_SELF: bv32 := 0x00000800
  const IN_IGNORED: bv32 := 0x00008000
  const IN_ISDIR: bv32 := 0x40000000

  predicate HasFlag(mask: bv32, flag: bv32) {
    mask & flag != 0
  }

  predicate IsDirectory(mask: bv32) {
    HasFlag(mask, IN_DELETE_SELF) || HasFlag(mask, IN_MOVE_SELF) || HasFlag(mask, IN_ISDIR)
  }

  datatype RawEvent = RawEvent(wd: int, mask: bv32, cookie: nat, name: string)

  datatype InotifyEvent = InotifyEvent(wd: int, mask: bv32, cookie: nat, name: string, srcPath: string)

  /** The kernel's answer; permission denied is not reported and leaves descriptor -1 recorded. */
  datatype AddResult = Watch(wd: nat) | Denied | Refused

  function Recorded(r: AddResult): int
    requires !r.Refused?
  {
    match r
    case Watch(wd) => wd
    case Denied => -1
  }

  /** An entry met while walking a new directory. */
  datatype WalkItem =
    | WalkDir(path: string, name: string, result: AddResult)
    | WalkFile(path: string, parent: string, name: string)

  datatype Outcome = KeyFailure | Emitted(events: seq<InotifyEvent>)

  function Before(events: seq<InotifyEvent>, o: Outcome): Outcome {
    match o
    case KeyFailure => KeyFailure
    case Emitted(more) => Emitted(events + more)
  }

  datatype Tables = Tables(watches: Watches, moves: map<nat, InotifyEvent>)

  // ----- one event -----

  /** Simulated creation events for the contents of a new directory. */
  function Simulate(w: Watches, items: seq<WalkItem>): (r: (Watches, Outcome))
    decreases |items|
  {
    if items == [] then (w, Emitted([]))
    else
      match items[0]
      case WalkDir(path, name, result) =>
        if result.Refused? then Simulate(w, items[1..])
        else
          var (w', o) := Simulate(Add(w, path, Recorded(result)), items[1..]);
          (w', Before([InotifyEvent(Recorded(result), IN_CREATE | IN_ISDIR, 0, name, path)], o))
      case WalkFile(path, parent, name) =>
        if parent !in w.wdForPath then (w, KeyFailure)
        else
          var (w', o) := Simulate(w, items[1..]);
          (w', Before([InotifyEvent(w.wdForPath[parent], IN_CREATE, 0, name, path)], o))
  }

  function SourcePath(w: Watches, raw: RawEvent): string
    requires raw.wd in w.pathForWd
  {
    if raw.name != "" then PathJoin(w.pathForWd[raw.wd], raw.name) else w.pathForWd[raw.wd]
  }

  /** The path reported for the event; an IN_MOVED_TO is always joined, even without a name. */
  function ReportedPath(w: Watches, raw: RawEvent): string
    requires raw.wd in w.pathForWd
  {
    if !HasFlag(raw.mask, IN_MOVED_FROM) && HasFlag(raw.mask, IN_MOVED_TO)
    then PathJoin(w.pathForWd[raw.wd], raw.name)
    else SourcePath(w, raw)
  }

  function EventAt(raw: RawEvent, path: string): InotifyEvent {
    InotifyEvent(raw.wd, raw.mask, raw.cookie, raw.name, path)
  }

  /** Book-keeping of renames. */
  function AfterMove(t: Tables, raw: RawEvent, recursive: bool, order: seq<string>): Tables
    requires raw.wd in t.watches.pathForWd
  {
    var src := SourcePath(t.watches, raw);
    if HasFlag(raw.mask, IN_MOVED_FROM) then
      t.(moves := t.moves[raw.cookie := EventAt(raw, src)])
    else if HasFlag(raw.mask, IN_MOVED_TO) && raw.cookie in t.moves
      && t.moves[raw.cookie].srcPath in t.watches.wdForPath
    then
      t.(watches := Rename(t.watches, t.moves[raw.cookie].srcPath, src, recursive, order))
    else t
  }

  /** An IN_MOVED_TO whose other half is remembered and has a watch. */
  predicate CompletesRename(t: Tables, raw: RawEvent) {
    && !HasFlag(raw.mask, IN_MOVED_FROM) && HasFlag(raw.mask, IN_MOVED_TO)
    && raw.cookie in t.moves && t.moves[raw.cookie].srcPath in t.watches.wdForPath
  }

  /** The subtree loop of a rename goes through every entry of the table it copies, once. */
  ghost predicate Traverses(t: Tables, raw: RawEvent, recursive: bool, order: seq<string>) {
    raw.wd != -1 && raw.wd in t.watches.pathForWd && recursive && CompletesRename(t, raw) ==>
      Enumerates(order, Move(t.watches, t.moves[raw.cookie].srcPath, SourcePath(t.watches, raw)))
  }

  predicate WatchesNewDirectory(raw: RawEvent, recursive: bool) {
    recursive && IsDirectory(raw.mask) && HasFlag(raw.mask, IN_CREATE)
  }

  function ProcessOne(t: Tables, raw: RawEvent, recursive: bool, order: seq<string>,
                      added: AddResult, walk: seq<WalkItem>): (r: (Tables, Outcome))
  {
    if raw.wd == -1 then (t, Emitted([]))
    else if raw.wd !in t.watches.pathForWd then (t, KeyFailure)
    else
      var path := ReportedPath(t.watches, raw);
      var t1 := AfterMove(t, raw, recursive, order);
      var w1 := t1.watches;
      if HasFlag(raw.mask, IN_IGNORED) then
        if raw.wd !in w1.pathForWd then (t1, KeyFailure)
        else (t1.(watches := Ignore(w1, raw.wd)),
              if w1.pathForWd[raw.wd] in w1.wdForPath then Emitted([]) else KeyFailure)
      else if WatchesNewDirectory(raw, recursive) && !added.Refused? then
        var (w2, o) := Simulate(Add(w1, path, Recorded(added)), walk);
        (t1.(watches := w2), Before([EventAt(raw, path)], o))
      else
        (t1, Emitted([EventAt(raw, path)]))
  }

  // ----- the class -----

  class Inotify {
    const recursive: bool
    var wdForPath: map<string, int>
    var pathForWd: map<int, string>
    var movedFromEvents: map<nat, InotifyEvent>

    constructor (recursive: bool)
      ensures View() == Tables(Watches(map[], map[]), map[]) && this.recursive == recursive
    {
      this.recursive := recursive;
      wdForPath, pathForWd, movedFromEvents := map[], map[], map[];
    }

    ghost function View(): Tables
      reads this
    {
      Tables(Watches(wdForPath, pathForWd), movedFromEvents)
    }

    method AddWatch(path: string, result: AddResult) returns (ok: bool, wd: int)
      modifies this`wdForPath, this`pathForWd
      ensures ok <==> !result.Refused?
      ensures ok ==> wd == Recorded(result)
      ensures View().watches == if ok then Add(old(View().watches), path, wd) else old(View().watches)
    {
      wd := if result.Watch? then result.wd else -1;
      ok := wd != -1 || result.Denied?;
      if ok {
        wdForPath := wdForPath[path := wd];
        pathForWd := pathForWd[wd := path];
      }
    }

    /** The path goes before its descriptor is looked up, and both before the kernel may refuse. */
    method RemoveWatch(path: string, refused: bool) returns (ok: bool)
      modifies this`wdForPath, this`pathForWd
      ensures ok <==> path in old(wdForPath) && old(wdForPath)[path] in old(pathForWd) && !refused
      ensures View().watches == if path in old(wdForPath) then Remove(old(View().watches), path) else old(View().watches)
    {
      if path !in wdForPath { return false; }
      var wd := wdForPath[path];
      wdForPath := wdForPath - {path};
      if wd !in pathForWd {
        assert pathForWd - {wd} == pathForWd;
        return false;
      }
      pathForWd := pathForWd - {wd};
      ok := !refused;
    }

    /** The subtree loop of a rename goes through a copy of the table, in an order of its own. */
    method MoveWatches(src: string, dst: string)
      requires src in wdForPath
      modifies this`wdForPath, this`pathForWd
      ensures exists order ::
        && (recursive ==> Enumerates(order, Move(old(View().watches), src, dst)))
        && View().watches == Rename(old(View().watches), src, dst, recursive, order)
    {
      var movedWd := wdForPath[src];
      wdForPath := wdForPath - {src};
      wdForPath := wdForPath[dst := movedWd];
      pathForWd := pathForWd[movedWd := dst];
      ghost var start := View().watches;
      ghost var order: seq<string> := [];
      assert start == Move(old(View().watches), src, dst);
      if recursive {
        var todo := wdForPath.Keys;
        while todo != {}
          invariant View().watches == MoveAll(start, src, dst, order)
          invariant Distinct(order) && ElementsOf(order) !! todo
          invariant ElementsOf(order) + todo == start.wdForPath.Keys
          invariant todo <= wdForPath.Keys
          decreases todo
        {
          var path :| path in todo;
          ghost var before, longer := View().watches, order + [path];
          assert longer[..|order|] == order;
          if src + [SEP] <= path {
            movedWd := wdForPath[path];
            wdForPath := wdForPath - {path};
            var moveToPath := Replace(path, src, dst);
            wdForPath := wdForPath[moveToPath := movedWd];
            pathForWd := pathForWd[movedWd := moveToPath];
          }
          assert View().watches == MoveIfUnder(before, src, dst, path);
          assert ElementsOf(longer) == ElementsOf(order) + {path};
          order := longer;
          todo := todo - {path};
        }
        assert forall p :: p in ElementsOf(order) <==> p in start.wdForPath;
      }
      assert View().watches == Rename(old(View().watches), src, dst, recursive, order);
    }

    method RecursiveSimulate(items: seq<WalkItem>) returns (o: Outcome)
      modifies this`wdForPath, this`pathForWd
      ensures (View().watches, o) == Simulate(old(View().watches), items)
    {
      var events := [];
      assert items[0..] == items;
      for n := 0 to |items|
        invariant Simulate(old(View().watches), items).0 == Simulate(View().watches, items[n..]).0
        invariant Simulate(old(View().watches), items).1 == Before(events, Simulate(View().watches, items[n..]).1)
      {
        assert items[n..][1..] == items[n + 1..];
        match items[n]
        case WalkDir(path, name, result) =>
          var ok, wd := AddWatch(path, result);
          if ok {
            events := events + [InotifyEvent(wd, IN_CREATE | IN_ISDIR, 0, name, path)];
          }
        case WalkFile(path, parent, name) =>
          if parent !in wdForPath {
            return KeyFailure;
          }
          events := events + [InotifyEvent(wdForPath[parent], IN_CREATE, 0, name, path)];
      }
      assert items[|items|..] == [] && events + [] == events;
      o := Emitted(events);
    }

    /** Remembers the source of a rename, or moves the watches of a rename that is complete. */
    method TrackMove(raw: RawEvent) returns (event: InotifyEvent)
      requires raw.wd != -1 && raw.wd in pathForWd
      modifies this
      ensures exists order :: Traverses(old(View()), raw, recursive, order) && View() == AfterMove(old(View()), raw, recursive, order)
      ensures event == EventAt(raw, ReportedPath(old(View()).watches, raw))
    {
      ghost var t := View();
      ghost var order: seq<string> := [];
      var wdPath := pathForWd[raw.wd];
      var srcPath := if raw.name != "" then PathJoin(wdPath, raw.name) else wdPath;
      event := EventAt(raw, srcPath);
      if HasFlag(event.mask, IN_MOVED_FROM) {
        movedFromEvents := movedFromEvents[event.cookie := event];
      } else if HasFlag(event.mask, IN_MOVED_TO) {
        if event.cookie in movedFromEvents {
          var moveSrcPath := movedFromEvents[event.cookie].srcPath;
          if moveSrcPath in wdForPath {
            MoveWatches(moveSrcPath, event.srcPath);
            order :|
              && (recursive ==> Enumerates(order, Move(t.watches, moveSrcPath, srcPath)))
              && View().watches == Rename(t.watches, moveSrcPath, srcPath, recursive, order);
          }
        }
        srcPath := PathJoin(wdPath, raw.name);
        event := EventAt(raw, srcPath);
      }
      assert View() == AfterMove(t, raw, recursive, order);
    }

    /** Drops an ignored descriptor, and its path if that still has this descriptor. */
    method ForgetIgnored(wd: int) returns (o: Outcome)
      requires wd in pathForWd
      modifies this`wdForPath, this`pathForWd
      ensures View().watches == Ignore(old(View().watches), wd)
      ensures o == if old(pathForWd)[wd] in old(wdForPath) then Emitted([]) else KeyFailure
    {
      var path := pathForWd[wd];
      pathForWd := pathForWd - {wd};
      if path !in wdForPath {
        return KeyFailure;
      }
      if wdForPath[path] == wd {
        wdForPath := wdForPath - {path};
      }
      o := Emitted([]);
    }

    /** The body of the reading loop, for one raw event. */
    method ProcessEvent(raw: RawEvent, added: AddResult, walk: seq<WalkItem>) returns (o: Outcome)
      modifies this
      ensures exists order ::
        && Traverses(old(View()), raw, recursive, order)
        && (View(), o) == ProcessOne(old(View()), raw, recursive, order, added, walk)
    {
      ghost var t := View();
      if raw.wd == -1 {
        assert Traverses(t, raw, recursive, []) && (View(), Emitted([])) == ProcessOne(t, raw, recursive, [], added, walk);
        return Emitted([]);
      }
      if raw.wd !in pathForWd {
        assert Traverses(t, raw, recursive, []) && (View(), KeyFailure) == ProcessOne(t, raw, recursive, [], added, walk);
        return KeyFailure;
      }
      var event := TrackMove(raw);
      ghost var order :| Traverses(t, raw, recursive, order) && View() == AfterMove(t, raw, recursive, order);
      if HasFlag(event.mask, IN_IGNORED) {
        if raw.wd !in pathForWd {
          o := KeyFailure;
        } else {
          o := ForgetIgnored(raw.wd);
        }
      } else {
        o := Emitted([event]);
        if recursive && IsDirectory(event.mask) && HasFlag(event.mask, IN_CREATE) {
          var ok, wd := AddWatch(event.srcPath, added);
          if ok {
            var more := RecursiveSimulate(walk);
            o := Before([event], more);
          }
        }
      }
      assert (View(), o) == ProcessOne(t, raw, recursive, order, added, walk);
    }
  }

  // ----- when a lookup fails -----

  /** Position `i` is a file whose directory has no watch when the walk reaches it. */
  ghost predicate Orphan(w: Watches, items: seq<WalkItem>, i: nat) {
    && i < |items| && items[i].WalkFile? && items[i].parent !in w.wdForPath
    && forall j :: 0 <= j < i && items[j].WalkDir? && items[j].path == items[i].parent ==> items[j].result.Refused?
  }

  /** The simulation fails exactly on a file in a directory whose watch was refused or never asked for. */
  lemma {:induction false} SimulateFailsIff(w: Watches, items: seq<WalkItem>)
    ensures Simulate(w, items).1.KeyFailure? <==> exists i: nat :: Orphan(w, items, i)
    decreases |items|
  {
    if items != [] {
      var first, rest := items[0], items[1..];
      var w' := if first.WalkDir? && !first.result.Refused? then Add(w, first.path, Recorded(first.result)) else w;
      SimulateFailsIff(w', rest);
      if i: nat :| Orphan(w', rest, i) {
        assert Orphan(w, items, i + 1);
      }
      if i: nat :| Orphan(w, items, i) {
        if i > 0 {
          assert Orphan(w', rest, i - 1);
        }
      }
      assert first.WalkFile? && first.parent !in w.wdForPath ==> Orphan(w, items, 0);
    }
  }

  lemma {:induction false} MoveKeepsDescriptors(w: Watches, src: string, dst: string, order: seq<string>)
    ensures w.pathForWd.Keys <= MoveAll(w, src, dst, order).pathForWd.Keys
    decreases |order|
  {
    if order != [] {
      MoveKeepsDescriptors(w, src, dst, order[..|order| - 1]);
    }
  }

  /**
   Processing an event fails exactly when its descriptor is unknown, or it is IN_IGNORED for
   a path that has no watch any more, or a new directory holds a file without a watched parent.
   */
  lemma ProcessFailsIff(t: Tables, raw: RawEvent, recursive: bool, order: seq<string>, added: AddResult, walk: seq<WalkItem>)
    ensures ProcessOne(t, raw, recursive, order, added, walk).1.KeyFailure? <==>
      raw.wd != -1 &&
      if raw.wd !in t.watches.pathForWd then true
      else
        var w1 := AfterMove(t, raw, recursive, order).watches;
        if HasFlag(raw.mask, IN_IGNORED) then
          raw.wd in w1.pathForWd && w1.pathForWd[raw.wd] !in w1.wdForPath
        else
          && WatchesNewDirectory(raw, recursive) && !added.Refused?
          && exists i: nat :: Orphan(Add(w1, ReportedPath(t.watches, raw), Recorded(added)), walk, i)
  {
    if raw.wd in t.watches.pathForWd {
      var w1 := AfterMove(t, raw, recursive, order).watches;
      assert raw.wd in w1.pathForWd by {
        var src := SourcePath(t.watches, raw);
        if raw.cookie in t.moves && t.moves[raw.cookie].srcPath in t.watches.wdForPath {
          MoveKeepsDescriptors(Move(t.watches, t.moves[raw.cookie].srcPath, src), t.moves[raw.cookie].srcPath, src, order);
        }
      }
      if !added.Refused? {
        SimulateFailsIff(Add(w1, ReportedPath(t.watches, raw), Recorded(added)), walk);
      }
    }
  }

  /** Without move flags, an IN_IGNORED fails exactly if its descriptor is unknown or has a path that is not recorded. */
  lemma IgnoredFailsIff(t: Tables, raw: RawEvent, recursive: bool, order: seq<string>, added: AddResult, walk: seq<WalkItem>)
    requires raw.wd != -1 && HasFlag(raw.mask, IN_IGNORED)
    requires !HasFlag(raw.mask, IN_MOVED_FROM) && !HasFlag(raw.mask, IN_MOVED_TO)
    ensures ProcessOne(t, raw, recursive, order, added, walk).1.KeyFailure? <==>
      raw.wd !in t.watches.pathForWd || t.watches.pathForWd[raw.wd] !in t.watches.wdForPath
  {
    ProcessFailsIff(t, raw, recursive, order, added, walk);
  }

  /**
   One IN_MOVED_TO that completes a rename, in recursive mode, in the order the loop takes: the
   watches of the subtree are recorded at their new paths, with their descriptors, and no other
   changes, exactly if no watch inside repeats the source's text and no two places coincide.
   */
  lemma CompletedRenameIsExact(t: Tables, raw: RawEvent, order: seq<string>, added: AddResult, walk: seq<WalkItem>)
    requires raw.wd != -1 && raw.wd in t.watches.pathForWd && CompletesRename(t, raw)
    requires !HasFlag(raw.mask, IN_IGNORED) && !WatchesNewDirectory(raw, true)
    requires Traverses(t, raw, true, order) && Consistent(t.watches)
    requires ProperRename(t.watches, t.moves[raw.cookie].srcPath, SourcePath(t.watches, raw))
    ensures var src, dst := t.moves[raw.cookie].srcPath, SourcePath(t.watches, raw);
      var (t', o) := ProcessOne(t, raw, true, order, added, walk);
      && o == Emitted([EventAt(raw, ReportedPath(t.watches, raw))])
      && (Placed(t.watches.wdForPath, t'.watches.wdForPath, p => Target(p, src, dst)) <==>
            SourceOccursOnce(t.watches, src) && TargetsApart(t.watches, src, dst))
      && (Placed(t.watches.wdForPath, t'.watches.wdForPath, p => Target(p, src, dst)) ==>
            KnownAtTargets(t.watches, t'.watches, src, dst))
      && t'.moves == t.moves
  {
    RenameIsExact(t.watches, t.moves[raw.cookie].srcPath, SourcePath(t.watches, raw), order);
  }

  /** The IN_IGNORED that the kernel sends after a watch was removed on purpose is not expected. */
  lemma IgnoredAfterRemoveFails(t: Tables, path: string, raw: RawEvent, recursive: bool, order: seq<string>,
                                added: AddResult, walk: seq<WalkItem>)
    requires path in t.watches.wdForPath && raw.wd == t.watches.wdForPath[path] && raw.wd >= 0
    ensures ProcessOne(t.(watches := Remove(t.watches, path)), raw, recursive, order, added, walk).1 == KeyFailure
  {
  }

  /**
   Nor is the IN_IGNORED of an old descriptor once the re-added path has been renamed: the
   tables are consistent all along, yet the lookup of the old path fails.
   */
  lemma StaleDescriptorFails(path: string, dst: string, oldWd: nat, newWd: nat)
    requires path != dst && oldWd != newWd && !Under(path, dst)
    ensures var w := Add(Add(Watches(map[], map[]), path, oldWd), path, newWd);
      var w' := Rename(w, path, dst, true, [dst]);
      && Consistent(w) && Consistent(w') && Enumerates([dst], Move(w, path, dst))
      && ProcessOne(Tables(w', map[]), RawEvent(oldWd, IN_IGNORED, 0, ""), true, [], Refused, []).1 == KeyFailure
  {
    var w := Add(Add(Watches(map[], map[]), path, oldWd), path, newWd);
    RenameKeeps(w, path, dst, true, [dst]);
    var m := Move(w, path, dst);
    assert [dst][..0] == [];
    assert MoveAll(m, path, dst, [dst]) == MoveIfUnder(MoveAll(m, path, dst, []), path, dst, dst);
    assert Rename(w, path, dst, true, [dst]) == m;
    var raw := RawEvent(oldWd, IN_IGNORED, 0, "");
    assert HasFlag(raw.mask, IN_IGNORED) && !HasFlag(raw.mask, IN_MOVED_FROM) && !HasFlag(raw.mask, IN_MOVED_TO);
  }

  // ----- whole runs -----

  datatype Input =
    | AddInput(path: string, result: AddResult)
    | RemoveInput(path: string)
    | ReadInput(raw: RawEvent, order: seq<string>, added: AddResult, walk: seq<WalkItem>)

  function Next(t: Tables, recursive: bool, input: Input): Tables {
    match input
    case AddInput(path, result) =>
      if result.Refused? then t else t.(watches := Add(t.watches, path, Recorded(result)))
    case RemoveInput(path) =>
      if path in t.watches.wdForPath then t.(watches := Remove(t.watches, path)) else t
    case ReadInput(raw, order, added, walk) =>
      ProcessOne(t, raw, recursive, order, added, walk).0
  }

  function RunInputs(recursive: bool, inputs: seq<Input>): Tables
    decreases |inputs|
  {
    if inputs == [] then Tables(Watches(map[], map[]), map[])
    else Next(RunInputs(recursive, inputs[..|inputs| - 1]), recursive, inputs[|inputs| - 1])
  }

  /** The kernel never answers with a descriptor that is recorded for another path. */
  ghost predicate WalkFresh(w: Watches, items: seq<WalkItem>)
    decreases |items|
  {
    items == [] || (
      match items[0]
      case WalkDir(path, _, result) =>
        if result.Refused? then WalkFresh(w, items[1..])
        else FreshFor(w, path, Recorded(result)) && WalkFresh(Add(w, path, Recorded(result)), items[1..])
      case WalkFile(_, _, _) => WalkFresh(w, items[1..]))
  }

  ghost predicate KernelFresh(t: Tables, recursive: bool, input: Input) {
    match input
    case AddInput(path, result) => result.Refused? || FreshFor(t.watches, path, Recorded(result))
    case RemoveInput(_) => true
    case ReadInput(raw, order, added, walk) =>
      raw.wd in t.watches.pathForWd && WatchesNewDirectory(raw, recursive) && !added.Refused? ==>
        var w1, path := AfterMove(t, raw, recursive, order).watches, ReportedPath(t.watches, raw);
        FreshFor(w1, path, Recorded(added)) && WalkFresh(Add(w1, path, Recorded(added)), walk)
  }

  ghost predicate AlwaysFresh(recursive: bool, inputs: seq<Input>)
    decreases |inputs|
  {
    inputs == [] ||
      (AlwaysFresh(recursive, inputs[..|inputs| - 1])
       && KernelFresh(RunInputs(recursive, inputs[..|inputs| - 1]), recursive, inputs[|inputs| - 1]))
  }

  lemma {:induction false} SimulateKeeps(w: Watches, items: seq<WalkItem>)
    requires Consistent(w) && WalkFresh(w, items)
    ensures Consistent(Simulate(w, items).0)
    decreases |items|
  {
    if items != [] {
      if items[0].WalkDir? && !items[0].result.Refused? {
        AddKeepsIff(w, items[0].path, Recorded(items[0].result));
        SimulateKeeps(Add(w, items[0].path, Recorded(items[0].result)), items[1..]);
      } else {
        SimulateKeeps(w, items[1..]);
      }
    }
  }

  lemma ReadKeeps(t: Tables, recursive: bool, raw: RawEvent, order: seq<string>, added: AddResult, walk: seq<WalkItem>)
    requires Consistent(t.watches) && KernelFresh(t, recursive, ReadInput(raw, order, added, walk))
    ensures Consistent(ProcessOne(t, raw, recursive, order, added, walk).0.watches)
  {
    if raw.wd != -1 && raw.wd in t.watches.pathForWd {
      var w1 := AfterMove(t, raw, recursive, order).watches;
      assert Consistent(w1) by {
        if raw.cookie in t.moves && t.moves[raw.cookie].srcPath in t.watches.wdForPath {
          RenameKeeps(t.watches, t.moves[raw.cookie].srcPath, SourcePath(t.watches, raw), recursive, order);
        }
      }
      if HasFlag(raw.mask, IN_IGNORED) {
        if raw.wd in w1.pathForWd { IgnoreKeeps(w1, raw.wd); }
      } else if WatchesNewDirectory(raw, recursive) && !added.Refused? {
        AddKeepsIff(w1, ReportedPath(t.watches, raw), Recorded(added));
        SimulateKeeps(Add(w1, ReportedPath(t.watches, raw), Recorded(added)), walk);
      }
    }
  }

  /**
   In every state reached by adding, removing and reading events, each recorded path is the
   path recorded for its descriptor, so no two paths share one.
   */
  lemma {:induction false} TablesStayConsistent(recursive: bool, inputs: seq<Input>)
    requires AlwaysFresh(recursive, inputs)
    ensures Consistent(RunInputs(recursive, inputs).watches)
    decreases |inputs|
  {
    if inputs != [] {
      var front, last := inputs[..|inputs| - 1], inputs[|inputs| - 1];
      TablesStayConsistent(recursive, front);
      var t := RunInputs(recursive, front);
      match last
      case AddInput(path, result) =>
        if !result.Refused? { AddKeepsIff(t.watches, path, Recorded(result)); }
      case RemoveInput(path) =>
        if path in t.watches.wdForPath { RemoveKeeps(t.watches, path); }
      case ReadInput(raw, order, added, walk) =>
        ReadKeeps(t, recursive, raw, order, added, walk);
    }
  }

  /** Permission denied twice is enough to leave two paths with one descriptor. */
  lemma DeniedTwiceShares(p: string, q: string)
    requires p != q
    ensures var t := RunInputs(true, [AddInput(p, Denied), AddInput(q, Denied)]);
      && p in t.watches.wdForPath && q in t.watches.wdForPath
      && t.watches.wdForPath[p] == t.watches.wdForPath[q]
  {
    var inputs := [AddInput(p, Denied), AddInput(q, Denied)];
    assert inputs[..1] == [AddInput(p, Denied)];
    assert inputs[..1][..0] == [];
  }
}
