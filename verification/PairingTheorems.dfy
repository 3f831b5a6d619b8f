/**
 What every interleaving of producer and consumer guarantees: conservation of events,
 delivery in put order, and when the two halves of a rename are delivered as one pair.
 */
module PairingTheorems {
  import opened DelayedQueues
  import opened InotifyBuffers
  import opened PairingMachine

  predicate Matching(f: Event, t: Event) {
    f.movedFrom && t.movedTo && f.cookie == t.cookie
  }

  /**
   The kernel's side of the bargain: a cookie belongs to one rename, whose IN_MOVED_FROM is
   reported before its IN_MOVED_TO.
   */
  ghost predicate RenameCookies(h: seq<Event>) {
    forall i, j :: 0 <= i < |h| && 0 <= j < |h| && h[i].cookie == h[j].cookie ==>
      && (h[i].movedFrom && h[j].movedFrom ==> i == j)
      && (h[i].movedTo && h[j].movedTo ==> i == j)
      && (h[i].movedFrom && h[j].movedTo ==> i < j)
  }

  ghost predicate DeliveredAlone(s: State, f: Event) {
    exists k :: 0 <= k < |s.delivered| && s.delivered[k].entry.element == Alone(f)
  }

  // ----- conservation and order -----

  /**
   In every interleaving, an event that was read is held by exactly one element once it is
   grouped, and by none before; elements hold nothing else, and no pair holds one event twice.
   */
  lemma {:induction false} EachEventInOnePlace(delay: real, steps: seq<Step>, i: nat)
    requires i < |Run(delay, steps).history|
    ensures var s := Run(delay, steps); var es := Elements(s);
      && (i < s.next <==> exists k :: 0 <= k < |es| && HasPart(es[k], s.history[i]))
      && (forall k, l ::
            (0 <= k < |es| && 0 <= l < |es| && HasPart(es[k], s.history[i]) && HasPart(es[l], s.history[i])) ==> k == l)
      && s.next <= |s.history|
      && (forall k, ev :: 0 <= k < |es| && HasPart(es[k], ev) ==> Among(s.history, s.next, ev))
      && (forall k :: 0 <= k < |es| && es[k].Pair? ==> es[k].from != es[k].to)
  {
    RunKeeps(delay, steps);
    var s := Run(delay, steps);
    var es := Elements(s);
    if i < s.next {
      var k := GroupedIsHeld(s, i);
    } else if k :| 0 <= k < |es| && HasPart(es[k], s.history[i]) {
      HeldIsGrouped(s, k, s.history[i]);
    }
    forall k, l | 0 <= k < |es| && 0 <= l < |es| && HasPart(es[k], s.history[i]) && HasPart(es[l], s.history[i])
      ensures k == l
    {
      HeldOnce(s, k, l, s.history[i]);
    }
    forall k, ev | 0 <= k < |es| && HasPart(es[k], ev) ensures Among(s.history, s.next, ev) {
      HeldIsAmong(es, s.history, s.next, k, ev);
    }
    forall k | 0 <= k < |es| && es[k].Pair? ensures es[k].from != es[k].to {
      assert PairFits(es[k]);
    }
  }

  /** Once everything read has passed through, the deliveries hold each event read exactly once. */
  lemma {:induction false} NothingIsLost(delay: real, steps: seq<Step>, ev: Event)
    requires var s := Run(delay, steps); s.next == |s.history| && s.grouped == [] && s.queue == []
    ensures var s := Run(delay, steps);
      Count(Elems(Entries(s.delivered)), ev) == if ev in s.history then 1 else 0
  {
    RunKeeps(delay, steps);
    var s := Run(delay, steps);
    assert Elements(s) == Elems(Entries(s.delivered));
    assert Among(s.history, s.next, ev) <==> ev in s.history;
  }

  /**
   Deliveries follow put order, even when the head is removed while the consumer sleeps on
   it: what has been delivered, followed by what waits, is the sequence of puts without the
   elements that the producer took back, each of which lives on inside a pair.
   No element is put twice, so identity of elements is equality of elements.
   */
  lemma {:induction false} DeliveriesFollowPutOrder(delay: real, steps: seq<Step>)
    ensures var s := Run(delay, steps);
      && Survivors(s.puts, s.removed) == Entries(s.delivered) + s.queue
      && DistinctElements(s.puts)
      && (forall e :: e in s.removed ==> TakenIntoPair(e, Elements(s)))
  {
    RunKeeps(delay, steps);
  }

  /**
   Whatever the cookies, a pair joins an IN_MOVED_FROM to a later IN_MOVED_TO with the same
   cookie; so a rename whose halves are read in the wrong order is never paired.
   */
  lemma {:induction false} PairsAreRenames(delay: real, steps: seq<Step>, f: Event, t: Event)
    requires Pair(f, t) in Elements(Run(delay, steps))
    ensures Matching(f, t) && f.id < t.id < Run(delay, steps).next
    ensures var h := Run(delay, steps).history; t.id < |h| && h[f.id] == f && h[t.id] == t
  {
    RunKeeps(delay, steps);
    var s := Run(delay, steps);
    assert PairFits(Pair(f, t));
    var k :| 0 <= k < |Elements(s)| && Elements(s)[k] == Pair(f, t);
    HeldIsGrouped(s, k, f);
    HeldIsGrouped(s, k, t);
  }

  // ----- what a step does to pairs -----

  /** Nothing but grouping changes the list of elements, and nothing shrinks the logs. */
  ghost predicate Quiet(s: State, s': State) {
    Elements(s') == Elements(s) && s'.next == s.next && s.history <= s'.history && s.delivered <= s'.delivered
  }

  lemma {:induction false} QuietStep(delay: real, s: State, step: Step)
    requires step != Group
    ensures Quiet(s, Apply(delay, s, step))
  {
    match step
    case PutNext => if s.next == |s.history| && s.grouped != [] { PutElements(s); }
    case Recheck =>
      if s.consumer.Holding? && s.now >= ReadyAt(s.consumer.entry, delay) { RecheckElements(s); }
    case Tick(_) | Read(_) | Close | Peek => assert Elements(Apply(delay, s, step)) == Elements(s);
    case Group =>
  }

  lemma {:induction false} StepKeepsPair(delay: real, s: State, step: Step, p: Element)
    requires p.Pair? && p in Elements(s)
    ensures p in Elements(Apply(delay, s, step))
  {
    if step == Group && s.next < |s.history| {
      var n :| 0 <= n < |Elements(s)| && Elements(s)[n] == p;
      var n' := GroupKeepsPair(s, n);
    } else if step != Group {
      QuietStep(delay, s, step);
    }
  }

  /** The element a lone event is held in is what the other half finds. */
  lemma {:induction false} HeldIsFound(s: State, i: nat)
    requires Conserved(s) && RenameCookies(s.history)
    requires i < s.next < |s.history| && Matching(s.history[i], s.history[s.next])
    ensures DeliveredAlone(s, s.history[i]) || ChangeOf(s).Joined? || ChangeOf(s).Pulled?
  {
    var f, t := s.history[i], s.history[s.next];
    var k := HeldAlone(s, i);
    if k < |s.delivered| {
      assert s.delivered[k].entry.element == Alone(f);
    } else if k >= |s.delivered| + |s.queue| {
      assert MatchingFrom(s.grouped[k - |s.delivered| - |s.queue|], t);
    } else {
      assert MatchingFrom(s.queue[k - |s.delivered|].element, t);
    }
  }

  lemma {:induction false} FoundIsPaired(s: State, i: nat)
    requires Conserved(s) && RenameCookies(s.history)
    requires i < s.next < |s.history| && Matching(s.history[i], s.history[s.next])
    requires ChangeOf(s).Joined? || ChangeOf(s).Pulled?
    ensures Pair(s.history[i], s.history[s.next]) in Elements(GroupStep(s))
  {
    var f, t, es, es' := s.history[i], s.history[s.next], Elements(s), Elements(GroupStep(s));
    match ChangeOf(s)
    case Joined(m) =>
      GroupJoins(s, m);
      HeldIsGrouped(s, m, es[m].event);
      assert es[m].event.id == i;
      assert es'[m] == Pair(f, t);
    case Pulled(m) =>
      GroupPulls(s, m);
      HeldIsGrouped(s, m, es[m].event);
      assert es[m].event.id == i;
      assert es'[|es'| - 1] == Pair(f, t);
  }

  /**
   The step that groups an IN_MOVED_TO settles its rename: either the pair is formed, or the
   other half has been delivered already.
   */
  lemma {:induction false} GroupSettles(s: State, i: nat)
    requires Conserved(s) && RenameCookies(s.history)
    requires i < s.next < |s.history| && Matching(s.history[i], s.history[s.next])
    ensures Pair(s.history[i], s.history[s.next]) in Elements(GroupStep(s)) || DeliveredAlone(s, s.history[i])
  {
    HeldIsFound(s, i);
    if ChangeOf(s).Joined? || ChangeOf(s).Pulled? {
      FoundIsPaired(s, i);
    }
  }

  /** Before its IN_MOVED_TO is grouped, an IN_MOVED_FROM is not in a pair. */
  lemma {:induction false} HeldAlone(s: State, i: nat) returns (k: nat)
    requires Conserved(s) && RenameCookies(s.history)
    requires i < s.next < |s.history| && Matching(s.history[i], s.history[s.next])
    ensures k < |Elements(s)| && Elements(s)[k] == Alone(s.history[i])
  {
    k := GroupedIsHeld(s, i);
    var e := Elements(s)[k];
    if e.Pair? {
      assert e in Elements(s) && PairFits(e);
      HeldIsGrouped(s, k, e.from);
      HeldIsGrouped(s, k, e.to);
      assert false;
    }
  }

  // ----- renames settled over whole runs -----

  /** Every rename with both halves grouped is a pair, or its first half was delivered alone. */
  ghost predicate Settled(s: State) {
    forall i, j :: 0 <= i < s.next <= |s.history| && 0 <= j < s.next && Matching(s.history[i], s.history[j]) ==>
      Pair(s.history[i], s.history[j]) in Elements(s) || DeliveredAlone(s, s.history[i])
  }

  /** A lone IN_MOVED_FROM was delivered before its IN_MOVED_TO was grouped. */
  ghost predicate LoneIsEarly(s: State) {
    forall k, j ::
      (0 <= k < |s.delivered| && 0 <= j < |s.history| && s.delivered[k].entry.element.Alone?
       && Matching(s.delivered[k].entry.element.event, s.history[j]))
      ==> j >= s.delivered[k].groupedBefore
  }

  lemma {:induction false} QuietSettles(s: State, s': State)
    requires Settled(s) && Quiet(s, s') && s.next <= |s.history|
    ensures Settled(s')
  {
    forall i, j | 0 <= i < s'.next && 0 <= j < s'.next && s'.next <= |s'.history| && Matching(s'.history[i], s'.history[j])
      ensures Pair(s'.history[i], s'.history[j]) in Elements(s') || DeliveredAlone(s', s'.history[i])
    {
      assert s'.history[i] == s.history[i] && s'.history[j] == s.history[j];
      StillDeliveredAlone(s, s', s.history[i]);
    }
  }

  lemma {:induction false} StillDeliveredAlone(s: State, s': State, f: Event)
    requires s.delivered <= s'.delivered
    ensures DeliveredAlone(s, f) ==> DeliveredAlone(s', f)
  {
    if k :| 0 <= k < |s.delivered| && s.delivered[k].entry.element == Alone(f) {
      assert s'.delivered[k] == s.delivered[k];
    }
  }

  lemma {:induction false} GroupKeepsSettled(s: State)
    requires Conserved(s) && RenameCookies(s.history) && Settled(s) && s.next < |s.history|
    ensures Settled(GroupStep(s))
  {
    var s', h := GroupStep(s), s.history;
    forall i, j | 0 <= i < s'.next && 0 <= j < s'.next && Matching(h[i], h[j])
      ensures Pair(h[i], h[j]) in Elements(s') || DeliveredAlone(s', h[i])
    {
      StillDeliveredAlone(s, s', h[i]);
      if i < s.next && j < s.next {
        if Pair(h[i], h[j]) in Elements(s) {
          var n :| 0 <= n < |Elements(s)| && Elements(s)[n] == Pair(h[i], h[j]);
          var n' := GroupKeepsPair(s, n);
        }
      } else {
        assert i < j == s.next;
        GroupSettles(s, i);
      }
    }
  }

  lemma {:induction false} StepSettles(delay: real, s: State, step: Step)
    requires Conserved(s) && RenameCookies(s.history) && Settled(s)
    ensures Settled(Apply(delay, s, step))
  {
    if step == Group {
      if s.next < |s.history| { GroupKeepsSettled(s); }
    } else {
      QuietStep(delay, s, step);
      QuietSettles(s, Apply(delay, s, step));
    }
  }

  lemma {:induction false} StepKeepsEarly(delay: real, s: State, step: Step)
    requires Inv(s, delay) && Settled(s) && LoneIsEarly(s)
    ensures LoneIsEarly(Apply(delay, s, step))
  {
    match step
    case Read(batch) => ReadKeepsEarly(s, delay, Stamp(batch, |s.history|));
    case Recheck => if s.consumer.Holding? { RecheckKeepsEarly(s); }
    case _ =>
      OtherStepsKeepLogs(delay, s, step);
      SameLogsKeepEarly(s, Apply(delay, s, step));
  }

  lemma {:induction false} OtherStepsKeepLogs(delay: real, s: State, step: Step)
    requires !step.Read? && !step.Recheck?
    ensures Apply(delay, s, step).delivered == s.delivered && Apply(delay, s, step).history == s.history
  {
  }

  lemma {:induction false} SameLogsKeepEarly(s: State, s': State)
    requires LoneIsEarly(s) && s'.delivered == s.delivered && s'.history == s.history
    ensures LoneIsEarly(s')
  {
  }

  lemma {:induction false} ReadKeepsEarly(s: State, delay: real, more: seq<Event>)
    requires Inv(s, delay) && LoneIsEarly(s)
    ensures LoneIsEarly(s.(history := s.history + more))
  {
    forall k | 0 <= k < |s.delivered| ensures s.delivered[k].groupedBefore <= |s.history| {
      assert s.delivered[k] in s.delivered;
    }
  }

  lemma {:induction false} RecheckKeepsEarly(s: State)
    requires Conserved(s) && Settled(s) && LoneIsEarly(s) && s.consumer.Holding?
    ensures LoneIsEarly(RecheckStep(s))
  {
    var s' := RecheckStep(s);
    forall k, j | 0 <= k < |s'.delivered| && 0 <= j < |s.history|
      && s'.delivered[k].entry.element.Alone? && Matching(s'.delivered[k].entry.element.event, s.history[j])
      ensures j >= s'.delivered[k].groupedBefore
    {
      if k < |s.delivered| {
        assert s'.delivered[k] == s.delivered[k];
      } else if j < s.next {
        DeliveredBeforeGrouped(s, j);
      }
    }
  }

  /** The head of the queue is not a lone half of a rename that is already settled. */
  lemma {:induction false} DeliveredBeforeGrouped(s: State, j: nat)
    requires Conserved(s) && Settled(s) && s.queue != [] && j < s.next
    requires s.queue[0].element.Alone?
    ensures !Matching(s.queue[0].element.event, s.history[j])
  {
    var n, f, es := |s.delivered|, s.queue[0].element.event, Elements(s);
    assert es[n] == Alone(f);
    HeldIsGrouped(s, n, f);
    if Matching(f, s.history[j]) {
      if Pair(f, s.history[j]) in es {
        var m :| 0 <= m < |es| && es[m] == Pair(f, s.history[j]);
        HeldOnce(s, n, m, f);
      } else {
        var k :| 0 <= k < |s.delivered| && s.delivered[k].entry.element == Alone(f);
        assert es[k] == Alone(f);
        HeldOnce(s, n, k, f);
      }
      assert false;
    }
  }

  lemma {:induction false} HistoryGrowsByStep(delay: real, s: State, step: Step)
    ensures s.history <= Apply(delay, s, step).history
  {
    match step
    case Group =>
    case _ => QuietStep(delay, s, step);
  }

  lemma {:induction false} CookiesOfPrefix(h: seq<Event>, h': seq<Event>)
    requires h <= h' && RenameCookies(h')
    ensures RenameCookies(h)
  {
    forall i, j | 0 <= i < |h| && 0 <= j < |h| && h[i].cookie == h[j].cookie
      ensures (h[i].movedFrom && h[j].movedFrom ==> i == j) && (h[i].movedTo && h[j].movedTo ==> i == j)
        && (h[i].movedFrom && h[j].movedTo ==> i < j)
    {
      assert h'[i] == h[i] && h'[j] == h[j];
    }
  }

  lemma {:induction false} RunSettles(delay: real, steps: seq<Step>)
    requires RenameCookies(Run(delay, steps).history)
    ensures Settled(Run(delay, steps)) && LoneIsEarly(Run(delay, steps))
    decreases |steps|
  {
    if steps != [] {
      var front := steps[..|steps| - 1];
      var s := Run(delay, front);
      HistoryGrowsByStep(delay, s, steps[|steps| - 1]);
      CookiesOfPrefix(s.history, Run(delay, steps).history);
      RunSettles(delay, front);
      RunKeeps(delay, front);
      StepSettles(delay, s, steps[|steps| - 1]);
      StepKeepsEarly(delay, s, steps[|steps| - 1]);
    }
  }

  // ----- the theorems about renames -----

  /**
   An IN_MOVED_FROM delivered alone waited the full delay after it was put, and its
   IN_MOVED_TO had not been grouped when it was delivered.
   */
  lemma {:induction false} LoneMovedFromWaited(delay: real, steps: seq<Step>, k: nat)
    requires var s := Run(delay, steps); RenameCookies(s.history) && k < |s.delivered|
    requires var e := Run(delay, steps).delivered[k].entry.element; e.Alone? && e.event.movedFrom
    ensures var s := Run(delay, steps); var d := s.delivered[k];
      && d.at >= d.entry.insertTime + delay
      && forall j :: 0 <= j < |s.history| && Matching(d.entry.element.event, s.history[j]) ==> d.groupedBefore <= j
  {
    RunKeeps(delay, steps);
    RunSettles(delay, steps);
    var s := Run(delay, steps);
    var d := s.delivered[k];
    SurvivorsMembers(s.puts, s.removed);
    assert (Entries(s.delivered) + s.queue)[k] == d.entry;
    assert d.entry in s.puts && d in s.delivered;
    assert DeliveryFits(d, s, delay) && EntryFits(d.entry, s.now);
  }

  /** A rename with both halves grouped is one pair exactly when its first half was not delivered alone. */
  lemma {:induction false} PairedUnlessDeliveredAlone(delay: real, steps: seq<Step>, i: nat, j: nat)
    requires var s := Run(delay, steps); RenameCookies(s.history) && i < s.next && j < s.next <= |s.history|
    requires var h := Run(delay, steps).history; Matching(h[i], h[j])
    ensures var s := Run(delay, steps);
      Pair(s.history[i], s.history[j]) in Elements(s) <==> !DeliveredAlone(s, s.history[i])
  {
    RunKeeps(delay, steps);
    RunSettles(delay, steps);
    var s := Run(delay, steps);
    if Pair(s.history[i], s.history[j]) in Elements(s) {
      NeverAlone(s, s.history[i], s.history[j], s.history[i]);
    }
  }

  lemma {:induction false} NeverAlone(s: State, f: Event, t: Event, ev: Event)
    requires Conserved(s) && Pair(f, t) in Elements(s) && (ev == f || ev == t)
    ensures !DeliveredAlone(s, ev)
  {
    var es := Elements(s);
    var n :| 0 <= n < |es| && es[n] == Pair(f, t);
    if DeliveredAlone(s, ev) {
      var k :| 0 <= k < |s.delivered| && s.delivered[k].entry.element == Alone(ev);
      assert es[k] == Alone(ev);
      HeldOnce(s, n, k, ev);
      assert false;
    }
  }

  lemma {:induction false} RunKeepsPair(delay: real, before: seq<Step>, after: seq<Step>, p: Element)
    requires p.Pair? && p in Elements(Run(delay, before))
    ensures p in Elements(Run(delay, before + after))
    decreases |after|
  {
    if after == [] {
      assert before + after == before;
    } else {
      var front := after[..|after| - 1];
      RunKeepsPair(delay, before, front, p);
      RunKeeps(delay, before + front);
      assert (before + after)[..|before + after| - 1] == before + front;
      StepKeepsPair(delay, Run(delay, before + front), after[|after| - 1], p);
    }
  }

  /**
   If an IN_MOVED_TO is grouped while its IN_MOVED_FROM has not been delivered, the two are
   one pair ever after, in every continuation, and neither is ever delivered alone.
   */
  lemma {:induction false} GroupedWhileWaitingIsPaired(delay: real, before: seq<Step>, after: seq<Step>, i: nat)
    requires var s := Run(delay, before);
      && i < s.next < |s.history| && RenameCookies(s.history)
      && Matching(s.history[i], s.history[s.next]) && !DeliveredAlone(s, s.history[i])
    ensures var s, s' := Run(delay, before), Run(delay, before + [Group] + after);
      var f, t := s.history[i], s.history[s.next];
      Pair(f, t) in Elements(s') && !DeliveredAlone(s', f) && !DeliveredAlone(s', t)
  {
    var s := Run(delay, before);
    var f, t := s.history[i], s.history[s.next];
    RunKeeps(delay, before);
    GroupSettles(s, i);
    assert (before + [Group])[..|before|] == before;
    RunKeepsPair(delay, before + [Group], after, Pair(f, t));
    RunKeeps(delay, before + [Group] + after);
    NeverAlone(Run(delay, before + [Group] + after), f, t, f);
    NeverAlone(Run(delay, before + [Group] + after), f, t, t);
  }

  // ----- the methods are runs of the machine -----

  function Repeat(step: Step, n: nat): (r: seq<Step>)
    ensures |r| == n
  {
    seq(n, _ => step)
  }

  lemma {:induction false} OneMoreStep(delay: real, s: State, step: Step, n: nat)
    ensures RunFrom(delay, s, Repeat(step, n + 1)) == Apply(delay, RunFrom(delay, s, Repeat(step, n)), step)
  {
    var steps := Repeat(step, n + 1);
    assert steps != [] && steps[|steps| - 1] == step && steps[..|steps| - 1] == Repeat(step, n);
  }

  lemma {:induction false} OneMoreGrouped(g: Grouping, h: seq<Event>, m: nat)
    requires m < |h|
    ensures GroupAll(g, h[..m + 1]) == GroupOne(GroupAll(g, h[..m]), h[m])
  {
    assert h[..m + 1][..m] == h[..m];
  }

  ghost predicate GroupedUpTo(s: State, s': State, n: nat)
    requires s.next + n <= |s.history|
  {
    && Grouping(s'.grouped, s'.queue) == GroupAll(Grouping(s.grouped, s.queue), s.history[s.next..][..n])
    && s'.next == s.next + n && s'.history == s.history && s'.now == s.now
    && s'.puts == s.puts && s'.deletedSelf == s.deletedSelf
  }

  lemma {:induction false} GroupingRun(delay: real, s: State, n: nat)
    requires s.next + n <= |s.history|
    ensures GroupedUpTo(s, RunFrom(delay, s, Repeat(Group, n)), n)
  {
    if n > 0 {
      GroupingRun(delay, s, n - 1);
      OneMoreStep(delay, s, Group, n - 1);
      GroupingOne(delay, s, RunFrom(delay, s, Repeat(Group, n - 1)), n - 1);
    }
  }

  lemma {:induction false} GroupingOne(delay: real, s: State, m: State, n: nat)
    requires s.next + n < |s.history| && GroupedUpTo(s, m, n)
    ensures GroupedUpTo(s, Apply(delay, m, Group), n + 1)
  {
    OneMoreGrouped(Grouping(s.grouped, s.queue), s.history[s.next..], n);
    assert Apply(delay, m, Group) == GroupStep(m);
  }

  /** The clock when a round has made some of its puts. */
  function ClockAfter(now: real, clock: nat -> real, n: nat): real {
    if n == 0 then now else clock(n - 1)
  }

  /** The clock does not go back during a round. */
  ghost predicate Forward(now: real, clock: nat -> real, n: nat) {
    forall k: nat {:trigger ClockAfter(now, clock, k)} :: k < n ==> ClockAfter(now, clock, k) <= clock(k)
  }

  /** Puts, each after the time that passes until it. */
  function Puts(now: real, clock: nat -> real, n: nat): seq<Step>
    decreases n
  {
    if n == 0 then []
    else Puts(now, clock, n - 1) + [Tick(clock(n - 1) - ClockAfter(now, clock, n - 1)), PutNext]
  }

  ghost predicate PutUpTo(s: State, s': State, clock: nat -> real, n: nat)
    requires n <= |s.grouped|
  {
    && s'.queue == s.queue + EntriesFor(s.grouped, clock)[..n] && s'.grouped == s.grouped[n..]
    && s'.puts == s.puts + EntriesFor(s.grouped, clock)[..n]
    && s'.next == s.next && s'.history == s.history && s'.now == ClockAfter(s.now, clock, n)
    && s'.deletedSelf == (s.deletedSelf || DeletesRoot(s.grouped[..n]))
  }

  lemma {:induction false} OneStepAfter(delay: real, s: State, front: seq<Step>, x: Step)
    ensures RunFrom(delay, s, front + [x]) == Apply(delay, RunFrom(delay, s, front), x)
  {
    var steps := front + [x];
    assert steps != [] && steps[|steps| - 1] == x && steps[..|steps| - 1] == front;
  }

  lemma {:induction false} TwoMoreSteps(delay: real, s: State, front: seq<Step>, x: Step, y: Step)
    ensures RunFrom(delay, s, front + [x, y]) == Apply(delay, Apply(delay, RunFrom(delay, s, front), x), y)
  {
    OneStepAfter(delay, s, front, x);
    OneStepAfter(delay, s, front + [x], y);
    SnocTwice(front, x, y);
  }

  lemma SnocTwice<T>(s: seq<T>, x: T, y: T)
    ensures s + [x] + [y] == s + [x, y]
  {
  }

  lemma {:induction false} PuttingStep(delay: real, s: State, front: seq<Step>, clock: nat -> real, n: nat)
    requires s.next == |s.history| && n < |s.grouped| && PutUpTo(s, RunFrom(delay, s, front), clock, n)
    requires ClockAfter(s.now, clock, n) <= clock(n)
    ensures PutUpTo(s, RunFrom(delay, s, front + [Tick(clock(n) - ClockAfter(s.now, clock, n)), PutNext]), clock, n + 1)
  {
    TwoMoreSteps(delay, s, front, Tick(clock(n) - ClockAfter(s.now, clock, n)), PutNext);
    PuttingOne(delay, s, RunFrom(delay, s, front), clock, n);
  }

  lemma {:induction false} NothingPut(s: State, clock: nat -> real)
    ensures PutUpTo(s, s, clock, 0)
  {
    assert s.grouped[..0] == [] && s.grouped[0..] == s.grouped;
    assert s.queue + EntriesFor(s.grouped, clock)[..0] == s.queue && s.puts + EntriesFor(s.grouped, clock)[..0] == s.puts;
  }

  lemma {:induction false} PuttingRun(delay: real, s: State, clock: nat -> real, n: nat)
    requires s.next == |s.history| && n <= |s.grouped| && Forward(s.now, clock, n)
    ensures PutUpTo(s, RunFrom(delay, s, Puts(s.now, clock, n)), clock, n)
    decreases n
  {
    if n == 0 {
      NothingPut(s, clock);
    } else {
      PuttingRun(delay, s, clock, n - 1);
      PuttingStep(delay, s, Puts(s.now, clock, n - 1), clock, n - 1);
    }
  }

  lemma {:induction false} PuttingOne(delay: real, s: State, m: State, clock: nat -> real, n: nat)
    requires s.next == |s.history| && n < |s.grouped| && PutUpTo(s, m, clock, n)
    requires ClockAfter(s.now, clock, n) <= clock(n)
    ensures var tick := Tick(clock(n) - ClockAfter(s.now, clock, n));
      PutUpTo(s, Apply(delay, Apply(delay, m, tick), PutNext), clock, n + 1)
  {
    var es := EntriesFor(s.grouped, clock);
    var ticked := m.(now := clock(n));
    assert es[..n + 1] == es[..n] + [es[n]] && s.grouped[..n + 1] == s.grouped[..n] + [s.grouped[n]];
    assert Apply(delay, m, Tick(clock(n) - ClockAfter(s.now, clock, n))) == ticked;
    assert Apply(delay, ticked, PutNext) == PutStep(ticked);
    DeletesOneMore(s.grouped[..n], s.grouped[n]);
  }

  lemma {:induction false} DeletesOneMore(front: seq<Element>, e: Element)
    ensures DeletesRoot(front + [e]) <==> DeletesRoot(front) || (e.Alone? && e.event.deletesRoot)
  {
    var all := front + [e];
    assert all[|front|] == e;
    if i :| 0 <= i < |front| && front[i].Alone? && front[i].event.deletesRoot { assert all[i] == front[i]; }
    if i :| 0 <= i < |all| && all[i].Alone? && all[i].event.deletesRoot && i < |front| { assert front[i] == all[i]; }
  }

  /**
   The round that `InotifyBuffer.RunRound` performs is the machine's run with nothing but time in
   between: group every event read, then put every group.  Queue, put log and end mark agree.
   */
  lemma {:induction false} UninterruptedRound(delay: real, s: State, clock: nat -> real)
    requires s.next <= |s.history| && s.grouped == []
    requires Forward(s.now, clock, |s.history| - s.next)
    ensures var n := |s.history| - s.next;
      var g := GroupAll(Grouping([], s.queue), s.history[s.next..]);
      var s' := RunFrom(delay, RunFrom(delay, s, Repeat(Group, n)), Puts(s.now, clock, |g.grouped|));
      && s'.grouped == [] && s'.next == |s.history| && s'.history == s.history
      && s'.queue == g.queue + EntriesFor(g.grouped, clock) && s'.puts == s.puts + EntriesFor(g.grouped, clock)
      && s'.deletedSelf == (s.deletedSelf || DeletesRoot(g.grouped))
  {
    var n := |s.history| - s.next;
    var m := RunFrom(delay, s, Repeat(Group, n));
    GroupingRun(delay, s, n);
    GroupsAtMost(Grouping([], s.queue), s.history[s.next..]);
    assert s.history[s.next..][..n] == s.history[s.next..];
    PuttingRun(delay, m, clock, |m.grouped|);
    RoundEnds(s, m, RunFrom(delay, m, Puts(s.now, clock, |m.grouped|)), clock);
  }

  lemma {:induction false} RoundEnds(s: State, m: State, s': State, clock: nat -> real)
    requires s.next <= |s.history| && s.grouped == [] && GroupedUpTo(s, m, |s.history| - s.next)
    requires PutUpTo(m, s', clock, |m.grouped|)
    ensures var g := GroupAll(Grouping([], s.queue), s.history[s.next..]);
      && m.grouped == g.grouped && s'.grouped == [] && s'.next == |s.history| && s'.history == s.history
      && s'.queue == g.queue + EntriesFor(g.grouped, clock) && s'.puts == s.puts + EntriesFor(g.grouped, clock)
      && s'.deletedSelf == (s.deletedSelf || DeletesRoot(g.grouped))
  {
    assert s.history[s.next..][..|s.history| - s.next] == s.history[s.next..];
    assert m.grouped[..|m.grouped|] == m.grouped;
    var es := EntriesFor(m.grouped, clock);
    assert es[..|es|] == es;
  }

  lemma {:induction false} GroupsAtMost(g: Grouping, events: seq<Event>)
    ensures |GroupAll(g, events).grouped| <= |g.grouped| + |events|
    decreases |events|
  {
    if events != [] { GroupsAtMost(g, events[..|events| - 1]); }
  }
}
