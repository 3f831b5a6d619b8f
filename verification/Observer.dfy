/**
 The observer's registry of watches, handlers and emitters, and the dispatch of one event to
 handlers that may change the registry while they are called.
 */
module Observer {
  import opened Common

  datatype Watch = Watch(path: string, recursive: bool)

  type Handler = nat

  /** A thread; two emitters are the same only if they are the same object. */
  datatype Emitter = Emitter(id: nat, watch: Watch)

  datatype Registry = Registry(
    watches: set<Watch>,
    handlers: map<Watch, set<Handler>>,
    emitters: set<Emitter>,
    emitterFor: map<Watch, Emitter>,
    running: set<Emitter>,
    made: nat,
    alive: bool)

  /** `order` is the order in which the set of emitters happens to be traversed. */
  datatype Op =
    | StartAll(order: seq<Emitter>, fails: set<Emitter>)
    | Schedule(handler: Handler, watch: Watch, startOk: bool)
    | AddHandler(handler: Handler, watch: Watch)
    | RemoveHandler(handler: Handler, watch: Watch)
    | Unschedule(watch: Watch)
    | UnscheduleAll

  datatype Outcome = Done | KeyError | StartFailed

  function Registered(reg: Registry, watch: Watch): set<Handler> {
    if watch in reg.handlers then reg.handlers[watch] else {}
  }

  function WithHandler(reg: Registry, handler: Handler, watch: Watch): Registry {
    reg.(handlers := reg.handlers[watch := Registered(reg, watch) + {handler}])
  }

  function WithEmitter(reg: Registry, e: Emitter): Registry {
    reg.(emitterFor := reg.emitterFor[e.watch := e], emitters := reg.emitters + {e}, made := reg.made + 1)
  }

  function WithoutEmitter(reg: Registry, e: Emitter): Registry {
    reg.(emitterFor := reg.emitterFor - {e.watch}, emitters := reg.emitters - {e}, running := reg.running - {e})
  }

  function TakeOut(reg: Registry, e: Emitter): (Registry, Outcome) {
    if e.watch !in reg.emitterFor then (reg, KeyError)
    else if e !in reg.emitters then (reg.(emitterFor := reg.emitterFor - {e.watch}), KeyError)
    else (WithoutEmitter(reg, e), Done)
  }

  /** A thread that runs already cannot be started either. */
  predicate Startable(reg: Registry, fails: set<Emitter>, e: Emitter) {
    e !in fails && e !in reg.running
  }

  /** Starts one emitter more, unless one before it could not be started. */
  function StartOne(reg: Registry, outcome: Outcome, e: Emitter, fails: set<Emitter>): (Registry, Outcome) {
    if outcome != Done || e !in reg.emitters then (reg, outcome)
    else if Startable(reg, fails, e) then (reg.(running := reg.running + {e}), Done)
    else
      var (r, removed) := TakeOut(reg, e);
      (r, if removed == Done then StartFailed else removed)
  }

  function StartEach(reg: Registry, order: seq<Emitter>, fails: set<Emitter>): (Registry, Outcome)
    decreases |order|
  {
    if order == [] then (reg, Done)
    else
      var (r, outcome) := StartEach(reg, order[..|order| - 1], fails);
      StartOne(r, outcome, order[|order| - 1], fails)
  }

  /** What an operation leaves behind, and how it ends; an exception leaves what was done before it. */
  function Apply(reg: Registry, op: Op): (Registry, Outcome) {
    match op
    case StartAll(order, fails) =>
      var (r, outcome) := StartEach(reg, order, fails);
      if outcome != Done then (r, outcome)
      else if r.alive then (r, StartFailed)
      else (r.(alive := true), Done)
    case Schedule(handler, watch, startOk) =>
      var r := WithHandler(reg, handler, watch);
      if watch in r.emitterFor then (r.(watches := r.watches + {watch}), Done)
      else
        var e := Emitter(reg.made, watch);
        var r' := WithEmitter(r, e);
        if !r.alive then (r'.(watches := r.watches + {watch}), Done)
        else if !startOk then (r', StartFailed)
        else (r'.(watches := r.watches + {watch}, running := r.running + {e}), Done)
    case AddHandler(handler, watch) => (WithHandler(reg, handler, watch), Done)
    case RemoveHandler(handler, watch) =>
      if handler !in Registered(reg, watch) then (reg, KeyError)
      else (reg.(handlers := reg.handlers[watch := Registered(reg, watch) - {handler}]), Done)
    case Unschedule(watch) =>
      if watch !in reg.emitterFor || watch !in reg.handlers then (reg, KeyError)
      else
        var e := reg.emitterFor[watch];
        var (r, removed) := TakeOut(reg.(handlers := reg.handlers - {watch}), e);
        if removed != Done then (r, removed)
        else if watch !in r.watches then (r, KeyError)
        else (r.(watches := r.watches - {watch}), Done)
    case UnscheduleAll =>
      (reg.(handlers := map[], running := reg.running - reg.emitters, emitters := {}, emitterFor := map[], watches := {}), Done)
  }

  function ApplyAll(reg: Registry, ops: seq<Op>): Registry
    decreases |ops|
  {
    if ops == [] then reg else Apply(ApplyAll(reg, ops[..|ops| - 1]), ops[|ops| - 1]).0
  }

  // ----- dispatch -----

  /** What a handler does with the observer when it is called, and whether it raises in the end. */
  datatype Reaction = Reaction(ops: seq<Op>, raises: bool)

  /** The reaction of a handler, given how many were called before it for the same event. */
  type Reactions = (Handler, nat) -> Reaction

  /** A handler whose turn came, the registry at that moment, and whether it was called. */
  datatype Visit = Visit(handler: Handler, at: Registry, called: bool)

  datatype Dispatched = Dispatched(after: Registry, visits: seq<Visit>, finished: bool)

  function Calls(visits: seq<Visit>): nat
    decreases |visits|
  {
    if visits == [] then 0 else Calls(visits[..|visits| - 1]) + if visits[|visits| - 1].called then 1 else 0
  }

  /** One turn: an exception ends the dispatch. */
  function Turn(d: Dispatched, h: Handler, watch: Watch, react: Reactions): Dispatched {
    if !d.finished then d
    else if h !in Registered(d.after, watch) then d.(visits := d.visits + [Visit(h, d.after, false)])
    else
      var r := react(h, Calls(d.visits));
      Dispatched(ApplyAll(d.after, r.ops), d.visits + [Visit(h, d.after, true)], !r.raises)
  }

  function DispatchAll(reg: Registry, order: seq<Handler>, watch: Watch, react: Reactions): Dispatched
    decreases |order|
  {
    if order == [] then Dispatched(reg, [], true)
    else Turn(DispatchAll(reg, order[..|order| - 1], watch, react), order[|order| - 1], watch, react)
  }

  class BaseObserver {
    var watches: set<Watch>
    var handlers: map<Watch, set<Handler>>
    var emitters: set<Emitter>
    var emitterFor: map<Watch, Emitter>
    var running: set<Emitter>
    var made: nat
    var alive: bool

    function State(): Registry
      reads this
    {
      Registry(watches, handlers, emitters, emitterFor, running, made, alive)
    }

    constructor ()
      ensures State() == Registry({}, map[], {}, map[], {}, 0, false)
    {
      watches, handlers, emitters, emitterFor, running, made, alive := {}, map[], {}, map[], {}, 0, false;
    }

    method AddEmitter(e: Emitter)
      modifies this`emitterFor, this`emitters
      ensures emitterFor == old(emitterFor)[e.watch := e] && emitters == old(emitters) + {e}
    {
      emitterFor := emitterFor[e.watch := e];
      emitters := emitters + {e};
    }

    /** Both removals can fail; then the emitter is stopped. */
    method RemoveEmitter(e: Emitter) returns (outcome: Outcome)
      modifies this`emitterFor, this`emitters, this`running
      ensures (State(), outcome) == TakeOut(old(State()), e)
    {
      if e.watch !in emitterFor { return KeyError; }
      emitterFor := emitterFor - {e.watch};
      if e !in emitters { return KeyError; }
      emitters := emitters - {e};
      running := running - {e};
      return Done;
    }

    method AddHandlerForWatch(handler: Handler, watch: Watch)
      modifies this`handlers
      ensures State() == Apply(old(State()), AddHandler(handler, watch)).0
    {
      if watch !in handlers {
        handlers := handlers[watch := {}];
      }
      handlers := handlers[watch := handlers[watch] + {handler}];
      assert handlers == WithHandler(old(State()), handler, watch).handlers;
    }

    method ScheduleWatch(handler: Handler, path: string, recursive: bool, startOk: bool) returns (watch: Watch, outcome: Outcome)
      modifies this
      ensures watch == Watch(path, recursive)
      ensures (State(), outcome) == Apply(old(State()), Schedule(handler, watch, startOk))
    {
      watch := Watch(path, recursive);
      AddHandlerForWatch(handler, watch);
      if watch !in emitterFor {
        var emitter := Emitter(made, watch);
        made := made + 1;
        AddEmitter(emitter);
        if alive {
          if !startOk { return watch, StartFailed; }
          running := running + {emitter};
        }
      }
      watches := watches + {watch};
      outcome := Done;
    }

    method RemoveHandlerForWatch(handler: Handler, watch: Watch) returns (outcome: Outcome)
      modifies this`handlers
      ensures (State(), outcome) == Apply(old(State()), RemoveHandler(handler, watch))
    {
      if watch !in handlers { return KeyError; }
      if handler !in handlers[watch] { return KeyError; }
      handlers := handlers[watch := handlers[watch] - {handler}];
      return Done;
    }

    method UnscheduleWatch(watch: Watch) returns (outcome: Outcome)
      modifies this
      ensures (State(), outcome) == Apply(old(State()), Unschedule(watch))
    {
      if watch !in emitterFor { return KeyError; }
      var emitter := emitterFor[watch];
      if watch !in handlers { return KeyError; }
      handlers := handlers - {watch};
      outcome := RemoveEmitter(emitter);
      if outcome != Done { return; }
      if watch !in watches { return KeyError; }
      watches := watches - {watch};
    }

    method UnscheduleEvery()
      modifies this
      ensures State() == Apply(old(State()), UnscheduleAll).0
    {
      handlers := map[];
      running := running - emitters;
      emitters := {};
      emitterFor := map[];
      watches := {};
    }

    method Perform(op: Op) returns (outcome: Outcome)
      modifies this
      ensures (State(), outcome) == Apply(old(State()), op)
    {
      match op
      case StartAll(order, fails) =>
        outcome := Start(order, fails);
      case Schedule(handler, watch, startOk) =>
        var w;
        w, outcome := ScheduleWatch(handler, watch.path, watch.recursive, startOk);
      case AddHandler(handler, watch) =>
        AddHandlerForWatch(handler, watch);
        outcome := Done;
      case RemoveHandler(handler, watch) =>
        outcome := RemoveHandlerForWatch(handler, watch);
      case Unschedule(watch) =>
        outcome := UnscheduleWatch(watch);
      case UnscheduleAll =>
        UnscheduleEvery();
        outcome := Done;
    }

    /** Starts the emitters one by one, and then the observer's own thread, which can be started once only. */
    method Start(order: seq<Emitter>, fails: set<Emitter>) returns (outcome: Outcome)
      modifies this`emitters, this`emitterFor, this`running, this`alive
      ensures (State(), outcome) == Apply(old(State()), StartAll(order, fails))
    {
      ghost var first := State();
      for i := 0 to |order|
        invariant (State(), Done) == StartEach(first, order[..i], fails)
      {
        assert order[..i + 1][..i] == order[..i];
        var e := order[i];
        if e in emitters {
          if e in fails || e in running {
            outcome := RemoveEmitter(e);
            if outcome == Done { outcome := StartFailed; }
            StartStops(first, order, i + 1, fails);
            return;
          }
          running := running + {e};
        }
      }
      assert order[..|order|] == order;
      if alive { return StartFailed; }
      alive := true;
      outcome := Done;
    }

    /**
     Hands one event to the handlers of a watch.  The handlers to call are fixed at the start, in
     some order, and each is looked up again before its call; a handler may use the observer.
     */
    method Dispatch(watch: Watch, react: Reactions) returns (finished: bool, ghost order: seq<Handler>, ghost visits: seq<Visit>)
      modifies this
      ensures Distinct(order) && forall h :: h in order ==> h in Registered(old(State()), watch)
      ensures finished ==> forall h :: h in Registered(old(State()), watch) ==> h in order
      ensures Dispatched(State(), visits, finished) == DispatchAll(old(State()), order, watch, react)
    {
      order, visits := [], [];
      var todo: set<Handler> := if watch in handlers then handlers[watch] else {};
      ghost var first := State();
      var calls := 0;
      while todo != {}
        invariant todo <= Registered(first, watch) && Distinct(order)
        invariant forall h :: h in order <==> h in Registered(first, watch) - todo
        invariant Dispatched(State(), visits, true) == DispatchAll(first, order, watch, react)
        invariant calls == Calls(visits)
        decreases |todo|
      {
        var h :| h in todo;
        todo := todo - {h};
        OnceMore(order, h);
        ghost var d := DispatchAll(first, order, watch, react);
        order := order + [h];
        assert order[..|order| - 1] + [h] == order;
        assert DispatchAll(first, order, watch, react) == Turn(d, h, watch, react) by {
          assert order[..|order| - 1] == order[..|order| - 1];
        }
        ghost var visit := Visit(h, State(), watch in handlers && h in handlers[watch]);
        if watch in handlers && h in handlers[watch] {
          var reaction := react(h, calls);
          PerformAll(reaction.ops);
          calls := calls + 1;
          if reaction.raises {
            visits := visits + [visit];
            return false, order, visits;
          }
        }
        CallsAppend(visits, visit);
        visits := visits + [visit];
      }
      finished := true;
    }

    method PerformAll(ops: seq<Op>)
      modifies this
      ensures State() == ApplyAll(old(State()), ops)
    {
      for i := 0 to |ops|
        invariant State() == ApplyAll(old(State()), ops[..i])
      {
        assert ops[..i + 1][..i] == ops[..i];
        var _ := Perform(ops[i]);
      }
      assert ops[..|ops|] == ops;
    }
  }

  /** After an emitter that could not be started nothing happens. */
  lemma {:induction false} StartStops(reg: Registry, order: seq<Emitter>, n: nat, fails: set<Emitter>)
    requires n <= |order| && StartEach(reg, order[..n], fails).1 != Done
    ensures StartEach(reg, order, fails) == StartEach(reg, order[..n], fails)
    decreases |order|
  {
    if n == |order| {
      assert order[..n] == order;
    } else {
      assert order[..|order| - 1][..n] == order[..n];
      StartStops(reg, order[..|order| - 1], n, fails);
    }
  }

  lemma {:induction false} OnceMore(order: seq<Handler>, h: Handler)
    requires Distinct(order) && h !in order
    ensures Distinct(order + [h])
  {
    assert forall i :: 0 <= i < |order| ==> order[i] in order;
  }

  lemma {:induction false} CallsAppend(visits: seq<Visit>, v: Visit)
    ensures Calls(visits + [v]) == Calls(visits) + if v.called then 1 else 0
  {
    assert (visits + [v])[..|visits|] == visits;
  }

  // ----- the correspondence of watches and emitters -----

  /** The emitters are those in the map, each under its watch; every mapped watch has handlers; only emitters run. */
  predicate Tied(reg: Registry) {
    && (forall w :: w in reg.emitterFor ==> reg.emitterFor[w] in reg.emitters && reg.emitterFor[w].watch == w)
    && (forall e :: e in reg.emitters ==> e.watch in reg.emitterFor && reg.emitterFor[e.watch] == e)
    && (forall w :: w in reg.emitterFor ==> w in reg.handlers)
    && (forall e :: e in reg.emitters ==> e.id < reg.made)
    && reg.running <= reg.emitters
  }

  /** The scheduled watches are those with an emitter. */
  predicate Matched(reg: Registry) {
    reg.watches == reg.emitterFor.Keys
  }

  /** Once the observer is alive every emitter runs. */
  predicate AllRun(reg: Registry) {
    reg.alive ==> reg.emitters <= reg.running
  }

  /** The operation makes an emitter and fails to start it, or starts all and cannot start some. */
  predicate FailsToStart(reg: Registry, op: Op) {
    || (op.Schedule? && op.watch !in reg.emitterFor && reg.alive && !op.startOk)
    || (op.StartAll? && exists e :: e in op.order && !Startable(reg, op.fails, e))
  }

  /** A start goes through every emitter once. */
  ghost predicate Traverses(reg: Registry, op: Op) {
    op.StartAll? ==> Distinct(op.order) && forall e :: e in op.order <==> e in reg.emitters
  }

  /** How far a start comes. */
  function FirstBad(reg: Registry, order: seq<Emitter>, fails: set<Emitter>): (k: nat)
    ensures k <= |order| && (k < |order| ==> !Startable(reg, fails, order[k]))
    ensures forall i :: 0 <= i < k ==> Startable(reg, fails, order[i])
    decreases |order|
  {
    if order == [] then 0
    else
      var k := FirstBad(reg, order[..|order| - 1], fails);
      if k == |order| - 1 && Startable(reg, fails, order[k]) then |order| else k
  }

  function Members(order: seq<Emitter>): set<Emitter> {
    set e | e in order
  }

  lemma {:induction false} StartOneMore(reg: Registry, done: set<Emitter>, e: Emitter, fails: set<Emitter>)
    requires Tied(reg) && e in reg.emitters && e !in done
    ensures var r := reg.(running := reg.running + done);
      StartOne(r, Done, e, fails)
      == if Startable(reg, fails, e) then (reg.(running := reg.running + (done + {e})), Done)
         else (WithoutEmitter(r, e), StartFailed)
  {
    assert reg.running + done + {e} == reg.running + (done + {e});
  }

  /**
   A start runs the emitters in the order in which they are traversed, up to the first that fails
   or runs already; that one is taken out.
   */
  lemma {:induction false} StartTriesInOrder(reg: Registry, order: seq<Emitter>, fails: set<Emitter>)
    requires Tied(reg) && Distinct(order) && forall e :: e in order ==> e in reg.emitters
    ensures var k := FirstBad(reg, order, fails);
      StartEach(reg, order, fails)
      == if k == |order| then (reg.(running := reg.running + Members(order)), Done)
         else (WithoutEmitter(reg.(running := reg.running + Members(order[..k])), order[k]), StartFailed)
    decreases |order|
  {
    if order == [] {
      assert reg.running + Members(order) == reg.running;
    } else {
      var front, e := order[..|order| - 1], order[|order| - 1];
      assert order == front + [e];
      StartTriesInOrder(reg, front, fails);
      var k := FirstBad(reg, front, fails);
      if k < |front| {
        assert order[..k] == front[..k];
      } else {
        assert e !in Members(front) && order[..k] == front;
        assert Members(order) == Members(front) + {e};
        StartOneMore(reg, Members(front), e, fails);
      }
    }
  }

  /** The map and the set of emitters always agree, even after a failure. */
  lemma {:induction false} ApplyKeepsTied(reg: Registry, op: Op)
    requires Tied(reg)
    ensures Tied(Apply(reg, op).0)
  {
    match op
    case StartAll(order, fails) => StartKeepsTied(reg, order, fails);
    case Schedule(handler, watch, startOk) => ScheduleKeepsTied(reg, handler, watch, startOk);
    case Unschedule(watch) =>
      if watch in reg.emitterFor {
        RemoveKeepsTied(reg, reg.emitterFor[watch]);
      }
    case _ =>
  }

  lemma {:induction false} ScheduleKeepsTied(reg: Registry, handler: Handler, watch: Watch, startOk: bool)
    requires Tied(reg)
    ensures Tied(Apply(reg, Schedule(handler, watch, startOk)).0)
  {
    var r := WithHandler(reg, handler, watch);
    assert Tied(r);
    if watch !in r.emitterFor {
      AddKeepsTied(r, Emitter(reg.made, watch));
    }
  }

  lemma {:induction false} StartKeepsTied(reg: Registry, order: seq<Emitter>, fails: set<Emitter>)
    requires Tied(reg)
    ensures Tied(StartEach(reg, order, fails).0)
    decreases |order|
  {
    if order != [] {
      var front, e := order[..|order| - 1], order[|order| - 1];
      StartKeepsTied(reg, front, fails);
      var r := StartEach(reg, front, fails).0;
      if e in r.emitters { RemoveKeepsTied(r, e); }
    }
  }

  lemma {:induction false} AddKeepsTied(reg: Registry, e: Emitter)
    requires Tied(reg) && e.watch in reg.handlers && e.watch !in reg.emitterFor && e.id == reg.made
    ensures Tied(WithEmitter(reg, e))
  {
  }

  lemma {:induction false} RemoveKeepsTied(reg: Registry, e: Emitter)
    requires Tied(reg) && e in reg.emitters
    ensures Tied(WithoutEmitter(reg, e)) && Tied(WithoutEmitter(reg.(handlers := reg.handlers - {e.watch}), e))
  {
  }

  /**
   Watches and emitters stay in step exactly when no emitter fails to start, and then all run once
   the observer is alive; a start that takes an emitter out leaves none idle either.
   */
  lemma {:induction false} ApplyKeepsMatchedIff(reg: Registry, op: Op)
    requires Tied(reg) && Matched(reg) && Traverses(reg, op)
    ensures Matched(Apply(reg, op).0) <==> !FailsToStart(reg, op)
    ensures Apply(reg, op).1 == StartFailed <==> FailsToStart(reg, op) || (op.StartAll? && reg.alive)
    ensures AllRun(reg) ==> (AllRun(Apply(reg, op).0) <==> !(op.Schedule? && FailsToStart(reg, op)))
  {
    if op.StartAll? {
      StartMatchedIff(reg, op.order, op.fails);
    } else if FailsToStart(reg, op) {
      assert op.watch in Apply(reg, op).0.emitterFor;
    }
  }

  lemma {:induction false} StartMatchedIff(reg: Registry, order: seq<Emitter>, fails: set<Emitter>)
    requires Tied(reg) && Matched(reg) && Traverses(reg, StartAll(order, fails))
    ensures var (r, outcome) := Apply(reg, StartAll(order, fails));
      && (Matched(r) <==> !FailsToStart(reg, StartAll(order, fails)))
      && (outcome == StartFailed <==> FailsToStart(reg, StartAll(order, fails)) || reg.alive)
      && (AllRun(reg) ==> AllRun(r))
  {
    var k := FirstBad(reg, order, fails);
    StartTriesInOrder(reg, order, fails);
    if k < |order| {
      assert order[k] in order && order[k].watch in reg.watches;
    } else {
      forall e | e in order ensures Startable(reg, fails, e) {
        var i :| 0 <= i < |order| && order[i] == e;
      }
      assert reg.emitters <= Members(order);
    }
  }

  /**
   An emitter left idle is run by another start exactly if every emitter up to it in the traversal
   can be started.
   */
  lemma {:induction false} RestartRunsIdleIff(reg: Registry, e: Emitter, order: seq<Emitter>, fails: set<Emitter>)
    requires Tied(reg) && e in reg.emitters && e !in reg.running && Traverses(reg, StartAll(order, fails))
    ensures e in Apply(reg, StartAll(order, fails)).0.running
      <==> exists i :: 0 <= i < |order| && order[i] == e && StartableUpTo(reg, order, fails, i)
  {
    var k := FirstBad(reg, order, fails);
    StartTriesInOrder(reg, order, fails);
    var i :| 0 <= i < |order| && order[i] == e;
    assert StartableUpTo(reg, order, fails, i) <==> i < k;
    if k < |order| {
      assert i < k <==> e in Members(order[..k]) by {
        if i < k { assert order[..k][i] == e; }
      }
    }
  }

  ghost predicate StartableUpTo(reg: Registry, order: seq<Emitter>, fails: set<Emitter>, i: nat)
    requires i < |order|
  {
    forall j :: 0 <= j <= i ==> Startable(reg, fails, order[j])
  }

  /** A scheduled watch can always be taken out, with its handlers and its emitter. */
  lemma {:induction false} UnscheduleRemoves(reg: Registry, w: Watch)
    requires Tied(reg) && Matched(reg)
    ensures Apply(reg, Unschedule(w)).1 == (if w in reg.watches then Done else KeyError)
    ensures var r := Apply(reg, Unschedule(w)).0;
      && w !in r.watches && w !in r.emitterFor && (w in reg.watches ==> Registered(r, w) == {})
      && forall v :: v != w ==> (v in r.watches <==> v in reg.watches) && Registered(r, v) == Registered(reg, v)
  {
  }

  /** What a start that fails takes away leaves the watch behind, so the two come apart exactly then. */
  lemma {:induction false} FailedStartUnmatches(reg: Registry, bad: Emitter)
    requires Tied(reg) && Matched(reg) && bad in reg.emitters
    ensures Tied(WithoutEmitter(reg, bad)) && !Matched(WithoutEmitter(reg, bad))
  {
    RemoveKeepsTied(reg, bad);
    assert bad.watch in reg.watches;
  }

  /** Scheduling the same watch again after a failure succeeds, but nothing starts its emitter. */
  lemma {:induction false} RetryLeavesEmitterIdle(reg: Registry, handler: Handler, w: Watch, startOk: bool)
    requires Tied(reg) && Matched(reg) && AllRun(reg)
    requires FailsToStart(reg, Schedule(handler, w, false))
    ensures var failed := Apply(reg, Schedule(handler, w, false)).0;
      var (again, outcome) := Apply(failed, Schedule(handler, w, startOk));
      && outcome == Done && Matched(again) && w in again.emitterFor
      && again.emitterFor[w] !in again.running && !AllRun(again)
  {
    var failed := Apply(reg, Schedule(handler, w, false)).0;
    var e := Emitter(reg.made, w);
    assert e !in reg.emitters;
    assert failed.emitterFor[w] == e && failed.running == reg.running;
  }

  /** The operation neither takes the watch out nor starts the emitters again. */
  predicate Leaves(op: Op, w: Watch) {
    op != Unschedule(w) && op != UnscheduleAll && !op.StartAll?
  }

  predicate AllLeave(ops: seq<Op>, w: Watch) {
    forall i :: 0 <= i < |ops| ==> Leaves(ops[i], w)
  }

  /** The emitter of the watch is there and does not run. */
  predicate IdleFor(reg: Registry, w: Watch, e: Emitter) {
    w in reg.emitterFor && reg.emitterFor[w] == e && e !in reg.running
  }

  lemma {:induction false} IdleStep(reg: Registry, w: Watch, e: Emitter, op: Op)
    requires Tied(reg) && IdleFor(reg, w, e) && Leaves(op, w)
    ensures IdleFor(Apply(reg, op).0, w, e)
  {
    match op
    case Schedule(handler, watch, startOk) => assert e.id < reg.made;
    case Unschedule(watch) =>
      if watch in reg.emitterFor { assert reg.emitterFor[watch].watch == watch; }
    case _ =>
  }

  /** Nothing but taking the watch out or starting the observer again ends this: its emitter stays, and does not run. */
  lemma {:induction false} IdleForGood(reg: Registry, w: Watch, ops: seq<Op>)
    requires Tied(reg) && w in reg.emitterFor && reg.emitterFor[w] !in reg.running && AllLeave(ops, w)
    ensures Tied(ApplyAll(reg, ops)) && IdleFor(ApplyAll(reg, ops), w, reg.emitterFor[w])
    decreases |ops|
  {
    if ops != [] {
      var front, op := ops[..|ops| - 1], ops[|ops| - 1];
      IdleForGood(reg, w, front);
      ApplyKeepsTied(ApplyAll(reg, front), op);
      IdleStep(ApplyAll(reg, front), w, reg.emitterFor[w], op);
    }
  }

  /** An emitter that failed to start does not run, whatever is done until its watch is taken out or all are started again. */
  lemma {:induction false} FailedNeverRuns(reg: Registry, handler: Handler, w: Watch, ops: seq<Op>)
    requires Tied(reg) && FailsToStart(reg, Schedule(handler, w, false)) && AllLeave(ops, w)
    ensures var r := ApplyAll(Apply(reg, Schedule(handler, w, false)).0, ops);
      w in r.emitterFor && r.emitterFor[w] !in r.running && (r.alive ==> !AllRun(r))
  {
    var failed := Apply(reg, Schedule(handler, w, false)).0;
    ApplyKeepsTied(reg, Schedule(handler, w, false));
    assert Emitter(reg.made, w) !in reg.emitters;
    IdleForGood(failed, w, ops);
  }

  /** No operation of the list fails to start an emitter it makes, or starts the observer again. */
  predicate StartsWell(ops: seq<Op>) {
    forall i :: 0 <= i < |ops| ==> !ops[i].StartAll? && (ops[i].Schedule? ==> ops[i].startOk)
  }

  ghost predicate InStep(reg: Registry) {
    Tied(reg) && Matched(reg) && AllRun(reg)
  }

  /** Over every list of operations whose emitters start. */
  lemma {:induction false} RunKeepsInStep(reg: Registry, ops: seq<Op>)
    requires InStep(reg) && StartsWell(ops)
    ensures InStep(ApplyAll(reg, ops))
    decreases |ops|
  {
    if ops != [] {
      var front, op := ops[..|ops| - 1], ops[|ops| - 1];
      RunKeepsInStep(reg, front);
      ApplyKeepsTied(ApplyAll(reg, front), op);
      ApplyKeepsMatchedIff(ApplyAll(reg, front), op);
    }
  }

  // ----- what one dispatch does -----

  /** Each visit sees the registry the visit before it left. */
  ghost predicate Follows(reg: Registry, visits: seq<Visit>, react: Reactions) {
    forall k :: 0 <= k < |visits| ==>
      visits[k].at == if k == 0 then reg else LeftBy(visits, k - 1, react)
  }

  function LeftBy(visits: seq<Visit>, k: nat, react: Reactions): Registry
    requires k < |visits|
  {
    var v := visits[k];
    if v.called then ApplyAll(v.at, react(v.handler, Calls(visits[..k])).ops) else v.at
  }

  /** The registry as the visits left it. */
  function Left(reg: Registry, visits: seq<Visit>, react: Reactions): Registry {
    if visits == [] then reg else LeftBy(visits, |visits| - 1, react)
  }

  /** One more visit, seeing what the last one left. */
  lemma {:induction false} FollowsStep(reg: Registry, visits: seq<Visit>, v: Visit, react: Reactions)
    requires Follows(reg, visits, react) && v.at == Left(reg, visits, react)
    ensures Follows(reg, visits + [v], react)
  {
    var all := visits + [v];
    forall k | 0 <= k < |all| ensures all[k].at == if k == 0 then reg else LeftBy(all, k - 1, react) {
      if k > 0 { assert all[..k - 1] == visits[..k - 1]; }
    }
  }

  lemma {:induction false} TurnFollows(reg: Registry, d: Dispatched, h: Handler, watch: Watch, react: Reactions)
    requires d.finished && Follows(reg, d.visits, react) && d.after == Left(reg, d.visits, react)
    ensures var next := Turn(d, h, watch, react);
      Follows(reg, next.visits, react) && next.after == Left(reg, next.visits, react)
  {
    var v := Visit(h, d.after, h in Registered(d.after, watch));
    FollowsStep(reg, d.visits, v, react);
    assert (d.visits + [v])[..|d.visits|] == d.visits;
  }

  /** Turns follow the order fixed at the start; a handler is called exactly if registered at its turn. */
  lemma {:induction false} CalledIffRegistered(reg: Registry, order: seq<Handler>, watch: Watch, react: Reactions)
    ensures var d := DispatchAll(reg, order, watch, react);
      && |d.visits| <= |order| && (d.finished ==> |d.visits| == |order|)
      && (forall k :: 0 <= k < |d.visits| ==> d.visits[k].handler == order[k])
      && (forall k :: 0 <= k < |d.visits| ==> (d.visits[k].called <==> order[k] in Registered(d.visits[k].at, watch)))
    decreases |order|
  {
    if order != [] {
      var front, h := order[..|order| - 1], order[|order| - 1];
      CalledIffRegistered(reg, front, watch, react);
    }
  }

  /**
   For arbitrary handlers that use the observer while they are called: the registry at each turn
   is what everything the handlers before it did has made of the registry at the start.
   */
  lemma {:induction false} TurnsSeeChanges(reg: Registry, order: seq<Handler>, watch: Watch, react: Reactions)
    ensures var d := DispatchAll(reg, order, watch, react);
      Follows(reg, d.visits, react) && d.after == Left(reg, d.visits, react)
    decreases |order|
  {
    if order != [] {
      var front, h := order[..|order| - 1], order[|order| - 1];
      TurnsSeeChanges(reg, front, watch, react);
      var before := DispatchAll(reg, front, watch, react);
      if before.finished {
        TurnFollows(reg, before, h, watch, react);
      }
    }
  }

  /** With the handlers in the order once each, none is called twice. */
  lemma {:induction false} CalledAtMostOnce(reg: Registry, order: seq<Handler>, watch: Watch, react: Reactions, j: nat, k: nat)
    requires Distinct(order)
    requires j < k < |DispatchAll(reg, order, watch, react).visits|
    ensures DispatchAll(reg, order, watch, react).visits[j].handler != DispatchAll(reg, order, watch, react).visits[k].handler
  {
    CalledIffRegistered(reg, order, watch, react);
  }

  /** A dispatch ends early exactly when the handler called last raises. */
  lemma {:induction false} StopsIffRaised(reg: Registry, order: seq<Handler>, watch: Watch, react: Reactions)
    ensures var d := DispatchAll(reg, order, watch, react);
      var last := |d.visits| - 1;
      !d.finished <==> last >= 0 && d.visits[last].called && react(d.visits[last].handler, Calls(d.visits[..last])).raises
    decreases |order|
  {
    if order != [] {
      var front, h := order[..|order| - 1], order[|order| - 1];
      StopsIffRaised(reg, front, watch, react);
      var before, d := DispatchAll(reg, front, watch, react), DispatchAll(reg, order, watch, react);
      assert d == Turn(before, h, watch, react);
      if before.finished {
        assert d.visits[..|before.visits|] == before.visits;
      }
    }
  }

  /** Whatever handlers do with the observer, as long as emitters start, watches and emitters stay in step. */
  lemma {:induction false} DispatchKeepsInStep(reg: Registry, order: seq<Handler>, watch: Watch, react: Reactions)
    requires InStep(reg) && forall h, n :: StartsWell(react(h, n).ops)
    ensures InStep(DispatchAll(reg, order, watch, react).after)
    decreases |order|
  {
    if order != [] {
      var front, h := order[..|order| - 1], order[|order| - 1];
      DispatchKeepsInStep(reg, front, watch, react);
      var before := DispatchAll(reg, front, watch, react);
      RunKeepsInStep(before.after, react(h, Calls(before.visits)).ops);
    }
  }
}
