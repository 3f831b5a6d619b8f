/**
 The consumer's side of the delayed queue: the critical sections of `get` are steps of the
 machine, and whatever is put can be delivered as long as the queue is open.
 */
module PairingConsumer {
  import opened Common
  import opened DelayedQueues
  import opened InotifyBuffers
  import opened PairingMachine
  import opened PairingTheorems

  // ----- the methods are steps of the machine -----

  /** The state of the machine is what the queue object holds. */
  ghost predicate Shows(q: DelayedQueue<Element>, s: State, delay: real)
    reads q
  {
    q.queue == s.queue && q.closed == s.closed && q.delaySec == delay
  }

  /** The first critical section: the head is remembered and stays where it is. */
  method LookAtHead(q: DelayedQueue<Element>, ghost delay: real, ghost s: State) returns (r: PeekResult<Element>)
    requires Shows(q, s, delay) && s.consumer.Idle?
    ensures Shows(q, Apply(delay, s, Peek), delay)
    ensures r.Closed? <==> s.closed
    ensures r.Waiting? <==> !s.closed && s.queue == []
    ensures r.Head? <==> Apply(delay, s, Peek).consumer.Holding?
    ensures r.Head? ==> Apply(delay, s, Peek).consumer == Holding(r.entry)
  {
    r := q.Peek();
  }

  /**
   Waking up: unless the delay has still to pass, the second critical section hands over the
   remembered element, exactly if it is still the head.
   */
  method WakeUp(q: DelayedQueue<Element>, entry: Entry<Element>, now: real, ghost delay: real, ghost s: State)
      returns (passed: bool, taken: Option<Element>)
    requires Shows(q, s, delay) && Inv(s, delay) && s.consumer == Holding(entry) && s.now == now
    modifies q`queue
    ensures Shows(q, Apply(delay, s, Recheck), delay)
    ensures passed <==> Apply(delay, s, Recheck).consumer.Idle?
    ensures passed <==> now >= ReadyAt(entry, delay)
    ensures taken == Handed(s, Apply(delay, s, Recheck))
  {
    taken := None;
    assert EntryFits(entry, s.now);
    passed := q.DelayPassed(entry, now);
    if passed {
      ghost var s' := Apply(delay, s, Recheck);
      var popped := q.TryPop(entry.element);
      if popped {
        taken := Some(entry.element);
        assert s'.delivered[|s.delivered|].entry.element == entry.element;
      }
    }
  }

  method CloseQueue(q: DelayedQueue<Element>, ghost delay: real, ghost s: State)
    requires Shows(q, s, delay)
    modifies q`closed
    ensures Shows(q, Apply(delay, s, Close), delay)
  {
    q.Close();
  }

  /** The element that a part of a run delivers, if it is one. */
  function Handed(s: State, s': State): Option<Element> {
    if |s'.delivered| == |s.delivered| + 1 then Some(s'.delivered[|s.delivered|].entry.element) else None
  }

  /** One turn of `get` that nobody interrupts, with a sleep of some length. */
  method GetOnce(q: DelayedQueue<Element>, elapsed: real, now: real, ghost delay: real, ghost s: State)
      returns (taken: Option<Element>)
    requires Shows(q, s, delay) && Inv(s, delay) && s.consumer.Idle? && elapsed >= 0.0 && now == s.now + elapsed
    modifies q`queue
    ensures Shows(q, RunFrom(delay, s, Turn(elapsed)), delay)
    ensures taken == Handed(s, RunFrom(delay, s, Turn(elapsed)))
    ensures taken.Some? <==> !s.closed && s.queue != [] && now >= ReadyAt(s.queue[0], delay)
    ensures taken.Some? ==> taken.value == s.queue[0].element && q.queue == s.queue[1..]
    ensures taken.None? ==> q.queue == s.queue
  {
    TurnUnfolds(delay, s, elapsed);
    var r := LookAtHead(q, delay, s);
    ghost var s1 := Apply(delay, s, Peek);
    ghost var s2 := Apply(delay, s1, Tick(elapsed));
    StepKeeps(delay, s, Peek);
    StepKeeps(delay, s1, Tick(elapsed));
    taken := None;
    if r.Head? {
      var passed;
      passed, taken := WakeUp(q, r.entry, now, delay, s2);
    }
  }

  function Turn(elapsed: real): seq<Step> {
    [Peek, Tick(elapsed), Recheck]
  }

  lemma {:induction false} TurnUnfolds(delay: real, s: State, elapsed: real)
    ensures RunFrom(delay, s, Turn(elapsed)) == Apply(delay, Apply(delay, Apply(delay, s, Peek), Tick(elapsed)), Recheck)
  {
    OneStepAfter(delay, s, [], Peek);
    TwoMoreSteps(delay, s, [Peek], Tick(elapsed), Recheck);
    assert [] + [Peek] == [Peek] && [Peek] + [Tick(elapsed), Recheck] == Turn(elapsed);
  }

  // ----- everything can be delivered -----

  predicate ConsumerSteps(steps: seq<Step>) {
    forall i :: 0 <= i < |steps| ==> steps[i].Tick? || steps[i].Peek? || steps[i].Recheck?
  }

  lemma {:induction false} RunOn(delay: real, s: State, a: seq<Step>, b: seq<Step>)
    ensures RunFrom(delay, s, a + b) == RunFrom(delay, RunFrom(delay, s, a), b)
    decreases |b|
  {
    if b == [] {
      assert a + b == a;
    } else {
      RunOn(delay, s, a, b[..|b| - 1]);
      assert (a + b)[..|a + b| - 1] == a + b[..|b| - 1];
    }
  }

  lemma {:induction false} RunFromKeeps(delay: real, s: State, steps: seq<Step>)
    requires Inv(s, delay)
    ensures Inv(RunFrom(delay, s, steps), delay)
    decreases |steps|
  {
    if steps != [] {
      RunFromKeeps(delay, s, steps[..|steps| - 1]);
      StepKeeps(delay, RunFrom(delay, s, steps[..|steps| - 1]), steps[|steps| - 1]);
    }
  }

  /** Long enough for every delay. */
  function Long(delay: real): real {
    if delay > 0.0 then delay else 0.0
  }

  /** A turn with a long sleep delivers the head. */
  lemma {:induction false} TurnDelivers(delay: real, s: State)
    requires Inv(s, delay) && s.consumer.Idle? && !s.closed && s.queue != []
    ensures var s' := RunFrom(delay, s, Turn(Long(delay)));
      s' == s.(now := s.now + Long(delay), queue := s.queue[1..],
               delivered := s.delivered + [Delivery(s.queue[0], s.now + Long(delay), s.next)])
  {
    TurnUnfolds(delay, s, Long(delay));
    HeadWasPut(s, delay);
  }

  lemma {:induction false} HeadWasPut(s: State, delay: real)
    requires Inv(s, delay) && s.queue != []
    ensures s.queue[0] in s.puts && EntryFits(s.queue[0], s.now)
  {
    SurvivorsMembers(s.puts, s.removed);
    assert (Entries(s.delivered) + s.queue)[|s.delivered|] == s.queue[0];
  }

  /** Turn after turn, as many as there are entries. */
  function Turns(delay: real, n: nat): seq<Step> {
    if n == 0 then [] else Turn(Long(delay)) + Turns(delay, n - 1)
  }

  /** Everything that waited was delivered, in order; nothing else changed. */
  ghost predicate Drained(s: State, s': State) {
    && s'.queue == [] && Entries(s'.delivered) == Entries(s.delivered) + s.queue
    && s'.history == s.history && s'.next == s.next && s'.grouped == s.grouped
    && s'.puts == s.puts && s'.removed == s.removed
  }

  lemma {:induction false} TurnsDrain(delay: real, s: State)
    requires Inv(s, delay) && s.consumer.Idle? && !s.closed
    ensures Drained(s, RunFrom(delay, s, Turns(delay, |s.queue|))) && ConsumerSteps(Turns(delay, |s.queue|))
    decreases |s.queue|
  {
    if s.queue == [] {
      assert Entries(s.delivered) + s.queue == Entries(s.delivered);
    } else {
      var m := RunFrom(delay, s, Turn(Long(delay)));
      TurnDelivers(delay, s);
      RunFromKeeps(delay, s, Turn(Long(delay)));
      TurnsDrain(delay, m);
      RunOn(delay, s, Turn(Long(delay)), Turns(delay, |m.queue|));
      assert Entries(m.delivered) == Entries(s.delivered) + [s.queue[0]];
      assert Entries(s.delivered) + [s.queue[0]] + s.queue[1..] == Entries(s.delivered) + s.queue;
    }
  }

  /** A consumer that sleeps wakes up first; the element it holds may be gone. */
  function Waking(delay: real, s: State): seq<Step> {
    if s.consumer.Idle? then [] else [Tick(Long(delay)), Recheck]
  }

  lemma {:induction false} WakingSettles(delay: real, s: State)
    requires Inv(s, delay)
    ensures var s' := RunFrom(delay, s, Waking(delay, s));
      && s'.consumer.Idle? && s'.closed == s.closed && Entries(s'.delivered) + s'.queue == Entries(s.delivered) + s.queue
      && s'.history == s.history && s'.next == s.next && s'.grouped == s.grouped
      && s'.puts == s.puts && s'.removed == s.removed
  {
    if s.consumer.Holding? {
      var ticked := s.(now := s.now + Long(delay));
      assert EntryFits(s.consumer.entry, s.now);
      TwoMoreSteps(delay, s, [], Tick(Long(delay)), Recheck);
      assert [] + [Tick(Long(delay)), Recheck] == Waking(delay, s);
      RecheckElements(ticked);
    }
  }

  /**
   From every state that a run reaches with the queue open, the consumer alone can deliver all
   that waits, in order: everything that was put and not taken back.
   */
  lemma {:induction false} WaitingCanBeDelivered(delay: real, steps: seq<Step>) returns (more: seq<Step>)
    requires !Run(delay, steps).closed
    ensures ConsumerSteps(more) && Drained(Run(delay, steps), Run(delay, steps + more))
    ensures var s' := Run(delay, steps + more); Entries(s'.delivered) == Survivors(s'.puts, s'.removed)
  {
    var s := Run(delay, steps);
    RunKeeps(delay, steps);
    more := DrainFrom(delay, s);
    RunOn(delay, INITIAL, steps, more);
  }

  lemma {:induction false} DrainFrom(delay: real, s: State) returns (more: seq<Step>)
    requires Inv(s, delay) && !s.closed
    ensures ConsumerSteps(more) && Drained(s, RunFrom(delay, s, more))
    ensures Entries(RunFrom(delay, s, more).delivered) == Survivors(s.puts, s.removed)
  {
    var m := RunFrom(delay, s, Waking(delay, s));
    WakingSettles(delay, s);
    RunFromKeeps(delay, s, Waking(delay, s));
    TurnsDrain(delay, m);
    RunOn(delay, s, Waking(delay, s), Turns(delay, |m.queue|));
    more := Waking(delay, s) + Turns(delay, |m.queue|);
  }

  lemma {:induction false} StaysOpen(delay: real, s: State, steps: seq<Step>)
    requires forall i :: 0 <= i < |steps| ==> !steps[i].Close?
    ensures RunFrom(delay, s, steps).closed == s.closed
    decreases |steps|
  {
    if steps != [] {
      StaysOpen(delay, s, steps[..|steps| - 1]);
      StepStaysOpen(delay, RunFrom(delay, s, steps[..|steps| - 1]), steps[|steps| - 1]);
    }
  }

  lemma {:induction false} StepStaysOpen(delay: real, s: State, step: Step)
    requires !step.Close?
    ensures Apply(delay, s, step).closed == s.closed
  {
  }

  lemma {:induction false} PutsDoNotClose(now: real, clock: nat -> real, n: nat)
    ensures forall i :: 0 <= i < |Puts(now, clock, n)| ==> !Puts(now, clock, n)[i].Close?
    decreases n
  {
    if n > 0 { PutsDoNotClose(now, clock, n - 1); }
  }

  /** Grouping and putting all that was read leaves the queue open. */
  lemma {:induction false} AllCanBePut(delay: real, s: State) returns (more: seq<Step>)
    requires Inv(s, delay) && !s.closed
    ensures var s' := RunFrom(delay, s, more);
      !s'.closed && s'.grouped == [] && s'.next == |s'.history| && s'.history == s.history
  {
    var n := |s.history| - s.next;
    var m := RunFrom(delay, s, Repeat(Group, n));
    GroupingRun(delay, s, n);
    StaysOpen(delay, s, Repeat(Group, n));
    var clock := (k: nat) => m.now;
    PuttingRun(delay, m, clock, |m.grouped|);
    PutsDoNotClose(m.now, clock, |m.grouped|);
    StaysOpen(delay, m, Puts(m.now, clock, |m.grouped|));
    RunOn(delay, s, Repeat(Group, n), Puts(m.now, clock, |m.grouped|));
    more := Repeat(Group, n) + Puts(m.now, clock, |m.grouped|);
    assert m.grouped[|m.grouped|..] == [];
  }

  /** From every such state all events read can be delivered, and then each has been exactly once. */
  lemma {:induction false} EverythingCanBeDelivered(delay: real, steps: seq<Step>) returns (more: seq<Step>)
    requires !Run(delay, steps).closed
    ensures var s, s' := Run(delay, steps), Run(delay, steps + more);
      s'.history == s.history && s'.next == |s.history| && s'.grouped == [] && s'.queue == []
    ensures AllDeliveredOnce(Run(delay, steps + more))
  {
    var s := Run(delay, steps);
    RunKeeps(delay, steps);
    var puts := AllCanBePut(delay, s);
    var m := RunFrom(delay, s, puts);
    RunFromKeeps(delay, s, puts);
    var drain := DrainFrom(delay, m);
    more := puts + drain;
    RunOn(delay, s, puts, drain);
    RunOn(delay, INITIAL, steps, more);
    forall ev
      ensures PairingMachine.Count(Elems(Entries(Run(delay, steps + more).delivered)), ev)
        == if ev in Run(delay, steps + more).history then 1 else 0
    {
      NothingIsLost(delay, steps + more, ev);
    }
  }

  /** Only a lone IN_MOVED_FROM has to wait: any other head is delivered without time passing. */
  lemma {:induction false} OthersGoAtOnce(delay: real, steps: seq<Step>)
    requires var s := Run(delay, steps);
      s.consumer.Idle? && !s.closed && s.queue != [] && !(s.queue[0].element.Alone? && s.queue[0].element.event.movedFrom)
    ensures var s, s' := Run(delay, steps), Run(delay, steps + [Peek, Recheck]);
      s'.now == s.now && s'.queue == s.queue[1..] && s'.delivered == s.delivered + [Delivery(s.queue[0], s.now, s.next)]
  {
    var s := Run(delay, steps);
    RunKeeps(delay, steps);
    HeadWasPut(s, delay);
    TwoMoreSteps(delay, INITIAL, steps, Peek, Recheck);
  }

  // ----- the end mark -----

  /** The deletion of the watched root has been put. */
  ghost predicate RootPut(s: State) {
    exists p :: p in s.puts && p.element.Alone? && p.element.event.deletesRoot
  }

  lemma {:induction false} StepKeepsMark(delay: real, s: State, step: Step)
    requires s.deletedSelf <==> RootPut(s)
    ensures Apply(delay, s, step).deletedSelf <==> RootPut(Apply(delay, s, step))
    ensures s.deletedSelf ==> Apply(delay, s, step).deletedSelf && Apply(delay, s, step).history == s.history
  {
    if step.PutNext? && s.next == |s.history| && s.grouped != [] {
      var s' := PutStep(s);
      var entry := s'.puts[|s.puts|];
      assert forall p :: p in s'.puts <==> p in s.puts || p == entry;
    }
  }

  lemma {:induction false} RunKeepsMark(delay: real, steps: seq<Step>)
    ensures Run(delay, steps).deletedSelf <==> RootPut(Run(delay, steps))
    decreases |steps|
  {
    if steps != [] {
      RunKeepsMark(delay, steps[..|steps| - 1]);
      StepKeepsMark(delay, Run(delay, steps[..|steps| - 1]), steps[|steps| - 1]);
    }
  }

  /** After the deletion of the root has been put nothing is read any more, whatever is done. */
  lemma {:induction false} DeletedRootEndsReading(delay: real, before: seq<Step>, after: seq<Step>)
    requires RootPut(Run(delay, before))
    ensures RootPut(Run(delay, before + after)) && Run(delay, before + after).history == Run(delay, before).history
    decreases |after|
  {
    RunKeepsMark(delay, before);
    if after == [] {
      assert before + after == before;
    } else {
      var front := after[..|after| - 1];
      DeletedRootEndsReading(delay, before, front);
      assert (before + after)[..|before + after| - 1] == before + front;
      RunKeepsMark(delay, before + front);
      StepKeepsMark(delay, Run(delay, before + front), after[|after| - 1]);
    }
  }

  /** Whatever was put was read. */
  lemma {:induction false} PutWasRead(s: State, delay: real, p: Entry<Element>)
    requires Inv(s, delay) && p in s.puts && p.element.Alone?
    ensures p.element.event in s.history
  {
    SurvivorsMembers(s.puts, s.removed);
    var es := Elements(s);
    if p.element in s.removed {
      var k :| 0 <= k < |es| && es[k].Pair? && es[k].from == p.element.event;
      HeldIsGrouped(s, k, p.element.event);
    } else {
      var all := Entries(s.delivered) + s.queue;
      var k :| 0 <= k < |all| && all[k] == p;
      assert es[k] == p.element;
      HeldIsGrouped(s, k, p.element.event);
    }
  }

  /** Nothing that was read deletes the root. */
  predicate RootStays(h: seq<Event>) {
    forall i :: 0 <= i < |h| ==> !h[i].deletesRoot
  }

  lemma {:induction false} NoRootPut(delay: real, steps: seq<Step>)
    requires RootStays(Run(delay, steps).history)
    ensures !Run(delay, steps).deletedSelf
  {
    var s := Run(delay, steps);
    RunKeeps(delay, steps);
    RunKeepsMark(delay, steps);
    if p :| p in s.puts && p.element.Alone? && p.element.event.deletesRoot {
      PutWasRead(s, delay, p);
    }
  }

  /** A batch can be read once all that was read before is put. */
  lemma {:induction false} BatchCanBeRead(delay: real, steps: seq<Step>, batch: seq<Raw>) returns (more: seq<Step>)
    requires !Run(delay, steps).closed && RootStays(Run(delay, steps).history)
    ensures var s, s' := Run(delay, steps), Run(delay, steps + more);
      !s'.closed && s'.history == s.history + Stamp(batch, |s.history|)
  {
    RunKeeps(delay, steps);
    var puts := AllCanBePut(delay, Run(delay, steps));
    RunOn(delay, INITIAL, steps, puts);
    NoRootPut(delay, steps + puts);
    OneStepAfter(delay, INITIAL, steps + puts, Step.Read(batch));
    more := puts + [Step.Read(batch)];
    Associative(steps, puts, [Step.Read(batch)]);
  }

  ghost predicate AllDeliveredOnce(s: State) {
    forall ev :: PairingMachine.Count(Elems(Entries(s.delivered)), ev) == if ev in s.history then 1 else 0
  }

  /** Until then any batch can be read and delivered: each of its events, and of those before, exactly once. */
  lemma {:induction false} BatchCanBeDelivered(delay: real, steps: seq<Step>, batch: seq<Raw>) returns (more: seq<Step>)
    requires !Run(delay, steps).closed && RootStays(Run(delay, steps).history)
    ensures var s, s' := Run(delay, steps), Run(delay, steps + more);
      && |s'.history| == |s.history| + |batch| && s.history <= s'.history
      && (forall i :: 0 <= i < |batch| ==> Tells(s'.history[|s.history| + i], batch[i]))
    ensures AllDeliveredOnce(Run(delay, steps + more))
  {
    var puts := BatchCanBeRead(delay, steps, batch);
    var rest := EverythingCanBeDelivered(delay, steps + puts);
    more := puts + rest;
    Associative(steps, puts, rest);
  }

  /** An event says what was read. */
  predicate Tells(ev: Event, raw: Raw) {
    ev.movedFrom == raw.movedFrom && ev.movedTo == raw.movedTo && ev.cookie == raw.cookie && ev.deletesRoot == raw.deletesRoot
  }
}
