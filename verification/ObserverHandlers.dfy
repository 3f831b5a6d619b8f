/** Which handlers are registered for which watch, after one operation and after any list of them. */
module ObserverHandlers {
  import opened Observer

  /** The operation registers a handler for a watch. */
  predicate Adds(op: Op, w: Watch, h: Handler) {
    (op.Schedule? || op.AddHandler?) && op.handler == h && op.watch == w
  }

  /** The operation takes a handler of a watch out; a watch without an emitter cannot be unscheduled. */
  predicate Drops(reg: Registry, op: Op, w: Watch, h: Handler) {
    || (op.RemoveHandler? && op.handler == h && op.watch == w)
    || (op.Unschedule? && op.watch == w && w in reg.emitterFor)
    || op.UnscheduleAll?
  }

  predicate IsRegistered(reg: Registry, w: Watch, h: Handler) {
    w in reg.handlers && h in reg.handlers[w]
  }

  lemma {:induction false} StartKeepsHandlers(reg: Registry, order: seq<Emitter>, fails: set<Emitter>)
    ensures StartEach(reg, order, fails).0.handlers == reg.handlers
    decreases |order|
  {
    if order != [] { StartKeepsHandlers(reg, order[..|order| - 1], fails); }
  }

  /** One operation adds and takes out what it names, whether it fails or not, and all else stays. */
  lemma {:induction false} OneChange(reg: Registry, op: Op, w: Watch, h: Handler)
    ensures IsRegistered(Apply(reg, op).0, w, h) <==> Adds(op, w, h) || (IsRegistered(reg, w, h) && !Drops(reg, op, w, h))
  {
    if op.StartAll? { StartKeepsHandlers(reg, op.order, op.fails); }
  }

  /** From the first k operations on nothing takes the handler out. */
  predicate StaysFrom(reg: Registry, ops: seq<Op>, k: nat, w: Watch, h: Handler) {
    forall j :: k <= j < |ops| ==> !Drops(ApplyAll(reg, ops[..j]), ops[j], w, h)
  }

  /** Registered at the start, or by the last of the first k operations. */
  predicate AddedBy(reg: Registry, ops: seq<Op>, k: nat, w: Watch, h: Handler)
    requires k <= |ops|
  {
    if k == 0 then IsRegistered(reg, w, h) else Adds(ops[k - 1], w, h)
  }

  /** There after the first k operations, and ever after. */
  predicate ThereFrom(reg: Registry, ops: seq<Op>, k: nat, w: Watch, h: Handler) {
    k <= |ops| && AddedBy(reg, ops, k, w, h) && StaysFrom(reg, ops, k, w, h)
  }

  lemma {:induction false} ThereOneMore(reg: Registry, ops: seq<Op>, k: nat, w: Watch, h: Handler)
    requires k < |ops|
    ensures var n := |ops| - 1;
      ThereFrom(reg, ops, k, w, h) <==> ThereFrom(reg, ops[..n], k, w, h) && !Drops(ApplyAll(reg, ops[..n]), ops[n], w, h)
  {
    var n := |ops| - 1;
    assert forall j :: 0 <= j < n ==> ops[..n][j] == ops[j] && ops[..n][..j] == ops[..j];
  }

  /**
   After any list of operations a handler is registered for a watch exactly if it was at some
   point and nothing later took it out.
   */
  lemma {:induction false} RegisteredIff(reg: Registry, ops: seq<Op>, w: Watch, h: Handler)
    ensures IsRegistered(ApplyAll(reg, ops), w, h) <==> exists k: nat :: ThereFrom(reg, ops, k, w, h)
    decreases |ops|
  {
    if ops == [] {
      assert AddedBy(reg, ops, 0, w, h) ==> ThereFrom(reg, ops, 0, w, h);
    } else {
      RegisteredIff(reg, ops[..|ops| - 1], w, h);
      OneChange(ApplyAll(reg, ops[..|ops| - 1]), ops[|ops| - 1], w, h);
      ThereMore(reg, ops, w, h);
    }
  }

  lemma {:induction false} ThereMore(reg: Registry, ops: seq<Op>, w: Watch, h: Handler)
    requires ops != []
    ensures var n := |ops| - 1;
      (exists k: nat :: ThereFrom(reg, ops, k, w, h)) <==>
        (Adds(ops[n], w, h)
         || ((exists k: nat :: ThereFrom(reg, ops[..n], k, w, h)) && !Drops(ApplyAll(reg, ops[..n]), ops[n], w, h)))
  {
    var n := |ops| - 1;
    assert ThereFrom(reg, ops, |ops|, w, h) <==> Adds(ops[n], w, h);
    if k: nat :| ThereFrom(reg, ops, k, w, h) && k <= n {
      ThereOneMore(reg, ops, k, w, h);
    }
    if k: nat :| ThereFrom(reg, ops[..n], k, w, h) {
      ThereOneMore(reg, ops, k, w, h);
    }
  }

  /**
   Which operations fail, where every watch has its emitter: adding a watch fails exactly if
   its new emitter cannot start, and taking out exactly if there is nothing to take out.
   */
  lemma {:induction false} FailsIff(reg: Registry, op: Op)
    requires Tied(reg) && Matched(reg) && !op.StartAll?
    ensures Apply(reg, op).1 != Done <==>
      (match op
       case Schedule(_, w, startOk) => w !in reg.watches && reg.alive && !startOk
       case RemoveHandler(h, w) => !IsRegistered(reg, w, h)
       case Unschedule(w) => w !in reg.watches
       case _ => false)
  {
  }
}
