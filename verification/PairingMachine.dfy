/**
 Producer and consumer of the inotify buffer as one state machine over atomic steps.

 A step is what happens between two lock boundaries: the clock moves, a batch is read, one
 event is grouped (the only access to the shared queue is the removal), one group is put,
 the queue is closed, the consumer looks at the head, the consumer wakes up and rechecks.
 A step that is not possible in a state leaves it unchanged, so a list of steps is an
 arbitrary interleaving.
 */
module PairingMachine {
  import opened DelayedQueues
  import opened InotifyBuffers

  datatype Raw = Raw(movedFrom: bool, movedTo: bool, cookie: nat, deletesRoot: bool)

  datatype Consumer = Idle | Holding(entry: Entry<Element>)

  /** A delivered entry, when it was delivered, and how many events were grouped by then. */
  datatype Delivery = Delivery(entry: Entry<Element>, at: real, groupedBefore: nat)

  datatype State = State(
    now: real,
    history: seq<Event>,            // every event read, in reading order
    next: nat,                      // how many of them have been grouped
    grouped: seq<Element>,          // the groups of the current batch not yet put
    queue: seq<Entry<Element>>,
    closed: bool,
    deletedSelf: bool,
    consumer: Consumer,
    delivered: seq<Delivery>,
    puts: seq<Entry<Element>>,      // every put ever made
    removed: set<Element>)          // what the producer has taken back out of the queue

  datatype Step =
    | Tick(elapsed: real)
    | Read(batch: seq<Raw>)
    | Group
    | PutNext
    | Close
    | Peek
    | Recheck

  const INITIAL := State(0.0, [], 0, [], [], false, false, Idle, [], [], {})

  function Stamp(batch: seq<Raw>, first: nat): (r: seq<Event>)
    ensures |r| == |batch|
    ensures forall i :: 0 <= i < |r| ==> r[i].id == first + i
  {
    seq(|batch|, i requires 0 <= i < |batch| =>
      Event(first + i, batch[i].movedFrom, batch[i].movedTo, batch[i].cookie, batch[i].deletesRoot))
  }

  function GroupStep(s: State): State
    requires s.next < |s.history|
  {
    var g := GroupOne(Grouping(s.grouped, s.queue), s.history[s.next]);
    var taken := if |g.queue| < |s.queue| then {s.queue[FirstQueued(s.queue, s.history[s.next])].element} else {};
    s.(grouped := g.grouped, queue := g.queue, next := s.next + 1, removed := s.removed + taken)
  }

  function PutStep(s: State): State
    requires s.grouped != []
  {
    var e := s.grouped[0];
    var entry := Entry(e, s.now, NeedsDelay(e));
    s.(queue := s.queue + [entry], puts := s.puts + [entry], grouped := s.grouped[1..],
       deletedSelf := s.deletedSelf || (e.Alone? && e.event.deletesRoot))
  }

  function RecheckStep(s: State): State
    requires s.consumer.Holding?
  {
    if s.queue != [] && s.queue[0].element == s.consumer.entry.element then
      s.(consumer := Idle, queue := s.queue[1..],
         delivered := s.delivered + [Delivery(s.queue[0], s.now, s.next)])
    else
      s.(consumer := Idle)
  }

  function Apply(delay: real, s: State, step: Step): State {
    match step
    case Tick(elapsed) => if elapsed >= 0.0 then s.(now := s.now + elapsed) else s
    case Read(batch) =>
      if s.next == |s.history| && s.grouped == [] && !s.deletedSelf
      then s.(history := s.history + Stamp(batch, |s.history|)) else s
    case Group => if s.next < |s.history| then GroupStep(s) else s
    case PutNext => if s.next == |s.history| && s.grouped != [] then PutStep(s) else s
    case Close => s.(closed := true)
    case Peek =>
      if s.consumer.Idle? && !s.closed && s.queue != [] then s.(consumer := Holding(s.queue[0])) else s
    case Recheck =>
      if s.consumer.Holding? && s.now >= ReadyAt(s.consumer.entry, delay) then RecheckStep(s) else s
  }

  function RunFrom(delay: real, s: State, steps: seq<Step>): State
    decreases |steps|
  {
    if steps == [] then s
    else Apply(delay, RunFrom(delay, s, steps[..|steps| - 1]), steps[|steps| - 1])
  }

  function Run(delay: real, steps: seq<Step>): State {
    RunFrom(delay, INITIAL, steps)
  }

  // ----- where events are -----

  function Elems(q: seq<Entry<Element>>): (r: seq<Element>)
    ensures |r| == |q|
  {
    seq(|q|, i requires 0 <= i < |q| => q[i].element)
  }

  function Entries(ds: seq<Delivery>): (r: seq<Entry<Element>>)
    ensures |r| == |ds|
  {
    seq(|ds|, i requires 0 <= i < |ds| => ds[i].entry)
  }

  /** Every element there is: delivered, then waiting in the queue, then being grouped. */
  function Elements(s: State): seq<Element> {
    Elems(Entries(s.delivered)) + Elems(s.queue) + s.grouped
  }

  predicate HasPart(e: Element, ev: Event) {
    match e
    case Alone(a) => a == ev
    case Pair(f, t) => f == ev || t == ev
  }

  /** How often an event occurs in an element. */
  function Times(e: Element, ev: Event): nat {
    match e
    case Alone(a) => if a == ev then 1 else 0
    case Pair(f, t) => (if f == ev then 1 else 0) + (if t == ev then 1 else 0)
  }

  function Count(es: seq<Element>, ev: Event): nat
    decreases |es|
  {
    if es == [] then 0 else Count(es[..|es| - 1], ev) + Times(es[|es| - 1], ev)
  }

  lemma {:induction false} CountAppend(a: seq<Element>, b: seq<Element>, ev: Event)
    ensures Count(a + b, ev) == Count(a, ev) + Count(b, ev)
    decreases |b|
  {
    if b == [] {
      assert a + b == a;
    } else {
      assert (a + b)[..|a + b| - 1] == a + b[..|b| - 1];
      CountAppend(a, b[..|b| - 1], ev);
    }
  }

  lemma {:induction false} CountSplit(es: seq<Element>, k: nat, ev: Event)
    requires k < |es|
    ensures Count(es, ev) == Count(es[..k], ev) + Times(es[k], ev) + Count(es[k + 1..], ev)
  {
    var a, b := es[..k + 1], es[k + 1..];
    assert es == a + b;
    CountAppend(a, b, ev);
    assert a[..k] == es[..k];
  }

  lemma {:induction false} CountUpdate(es: seq<Element>, k: nat, e: Element, ev: Event)
    requires k < |es|
    ensures Count(es[k := e], ev) == Count(es, ev) - Times(es[k], ev) + Times(e, ev)
  {
    CountSplit(es, k, ev);
    CountSplit(es[k := e], k, ev);
    assert es[k := e][..k] == es[..k] && es[k := e][k + 1..] == es[k + 1..];
  }

  lemma {:induction false} CountMove(es: seq<Element>, k: nat, e: Element, ev: Event)
    requires k < |es|
    ensures Count(es[..k] + es[k + 1..] + [e], ev) == Count(es, ev) - Times(es[k], ev) + Times(e, ev)
  {
    var rest := es[..k] + es[k + 1..];
    CountSplit(es, k, ev);
    CountAppend(es[..k], es[k + 1..], ev);
    assert (rest + [e])[..|rest|] == rest;
  }

  /** Two positions hold what their elements hold together. */
  lemma {:induction false} CountTwo(es: seq<Element>, i: nat, j: nat, ev: Event)
    requires i < j < |es|
    ensures Times(es[i], ev) + Times(es[j], ev) <= Count(es, ev)
  {
    CountSplit(es, j, ev);
    CountSplit(es[..j], i, ev);
  }

  lemma {:induction false} CountPositive(es: seq<Element>, ev: Event) returns (k: nat)
    requires Count(es, ev) > 0
    ensures k < |es| && HasPart(es[k], ev)
    decreases |es|
  {
    k := |es| - 1;
    if !HasPart(es[k], ev) {
      k := CountPositive(es[..k], ev);
    }
  }

  predicate Numbered(history: seq<Event>) {
    forall i :: 0 <= i < |history| ==> history[i].id == i
  }

  // ----- the order of puts -----

  function Survivors(puts: seq<Entry<Element>>, removed: set<Element>): seq<Entry<Element>>
    decreases |puts|
  {
    if puts == [] then []
    else
      var last := puts[|puts| - 1];
      Survivors(puts[..|puts| - 1], removed) + (if last.element in removed then [] else [last])
  }

  lemma {:induction false} SurvivorsOfFresh(puts: seq<Entry<Element>>, removed: set<Element>, entry: Entry<Element>)
    requires entry.element !in removed
    ensures Survivors(puts + [entry], removed) == Survivors(puts, removed) + [entry]
  {
    assert (puts + [entry])[..|puts|] == puts;
  }

  lemma {:induction false} SurvivorsMembers(puts: seq<Entry<Element>>, removed: set<Element>)
    ensures forall e :: e in Survivors(puts, removed) <==> e in puts && e.element !in removed
    decreases |puts|
  {
    if puts != [] {
      SurvivorsMembers(puts[..|puts| - 1], removed);
      assert puts == puts[..|puts| - 1] + [puts[|puts| - 1]];
    }
  }

  predicate DistinctElements(puts: seq<Entry<Element>>) {
    forall i, j :: 0 <= i < j < |puts| ==> puts[i].element != puts[j].element
  }

  /** Removing one more element drops exactly its position from the survivors. */
  lemma {:induction false} SurvivorsAfterRemoval(puts: seq<Entry<Element>>, removed: set<Element>, k: nat)
    requires DistinctElements(puts)
    requires k < |Survivors(puts, removed)|
    ensures var s := Survivors(puts, removed);
      Survivors(puts, removed + {s[k].element}) == s[..k] + s[k + 1..]
    decreases |puts|
  {
    var front, last := puts[..|puts| - 1], puts[|puts| - 1];
    var sf := Survivors(front, removed);
    var tail := if last.element in removed then [] else [last];
    var s := sf + tail;
    if k < |sf| {
      SurvivorsAfterRemoval(front, removed, k);
      SurvivorsMembers(front, removed);
      assert sf[k] in front && last.element != sf[k].element;
      assert s[..k] == sf[..k] && s[k + 1..] == sf[k + 1..] + tail;
    } else {
      SurvivorsUntouched(front, removed, last.element);
      assert s[..k] == sf && s[k + 1..] == [];
    }
  }

  lemma {:induction false} SurvivorsUntouched(puts: seq<Entry<Element>>, removed: set<Element>, e: Element)
    requires forall p :: p in puts ==> p.element != e
    ensures Survivors(puts, removed + {e}) == Survivors(puts, removed)
    decreases |puts|
  {
    if puts != [] {
      SurvivorsUntouched(puts[..|puts| - 1], removed, e);
    }
  }

  // ----- the invariant of every interleaving -----

  predicate PairFits(e: Element) {
    e.Pair? ==> e.from.movedFrom && e.to.movedTo && e.from.cookie == e.to.cookie && e.from.id < e.to.id
  }

  predicate EntryFits(e: Entry<Element>, now: real) {
    e.insertTime <= now && e.delayed == NeedsDelay(e.element)
  }

  predicate DeliveryFits(d: Delivery, s: State, delay: real) {
    d.at >= ReadyAt(d.entry, delay) && d.at <= s.now && d.groupedBefore <= s.next
  }

  ghost predicate TakenIntoPair(e: Element, es: seq<Element>) {
    e.Alone? && exists k :: 0 <= k < |es| && es[k].Pair? && es[k].from == e.event
  }

  /** The event is one of the first `n` of the history. */
  predicate Among(h: seq<Event>, n: nat, ev: Event)
    requires n <= |h|
  {
    ev.id < n && h[ev.id] == ev
  }

  /** The elements hold each of the first `n` events once and nothing else, pairs being renames. */
  ghost predicate Holds(es: seq<Element>, h: seq<Event>, n: nat) {
    && n <= |h| && Numbered(h)
    && (forall ev :: Count(es, ev) == if Among(h, n, ev) then 1 else 0)
    && (forall k :: 0 <= k < |es| ==> PairFits(es[k]))
  }

  ghost predicate Conserved(s: State) {
    Holds(Elements(s), s.history, s.next)
  }

  ghost predicate Ordered(s: State) {
    && DistinctElements(s.puts)
    && Survivors(s.puts, s.removed) == Entries(s.delivered) + s.queue
    && (forall e :: e in s.removed ==> TakenIntoPair(e, Elements(s)))
    && (s.consumer.Holding? ==> s.consumer.entry in s.puts)
  }

  ghost predicate Timed(s: State, delay: real) {
    && (forall e :: e in s.puts ==> EntryFits(e, s.now))
    && (forall d :: d in s.delivered ==> DeliveryFits(d, s, delay))
  }

  ghost predicate Inv(s: State, delay: real) {
    Conserved(s) && Ordered(s) && Timed(s, delay)
  }

  /** An event is held by at most one position. */
  lemma {:induction false} HeldOnce(s: State, i: nat, j: nat, ev: Event)
    requires Conserved(s)
    requires i < |Elements(s)| && j < |Elements(s)|
    requires HasPart(Elements(s)[i], ev) && HasPart(Elements(s)[j], ev)
    ensures i == j
  {
    if i != j {
      CountTwo(Elements(s), if i < j then i else j, if i < j then j else i, ev);
    }
  }

  lemma {:induction false} HeldIsAmong(es: seq<Element>, h: seq<Event>, n: nat, k: nat, ev: Event)
    requires Holds(es, h, n) && k < |es| && HasPart(es[k], ev)
    ensures Among(h, n, ev)
  {
    CountSplit(es, k, ev);
  }

  lemma {:induction false} HeldIsGrouped(s: State, k: nat, ev: Event)
    requires Conserved(s) && k < |Elements(s)| && HasPart(Elements(s)[k], ev)
    ensures ev.id < s.next && s.history[ev.id] == ev
  {
    HeldIsAmong(Elements(s), s.history, s.next, k, ev);
  }

  lemma {:induction false} GroupedIsHeld(s: State, i: nat) returns (k: nat)
    requires Conserved(s) && i < s.next
    ensures k < |Elements(s)| && HasPart(Elements(s)[k], s.history[i])
  {
    assert Among(s.history, s.next, s.history[i]);
    k := CountPositive(Elements(s), s.history[i]);
  }

  /** How grouping one event changes the list of all elements. */
  datatype Change = Appended | Joined(at: nat) | Pulled(at: nat)

  function ChangeOf(s: State): Change
    requires s.next < |s.history|
  {
    var ev := s.history[s.next];
    var i := FirstGrouped(s.grouped, ev);
    var j := FirstQueued(s.queue, ev);
    if !ev.movedTo then Appended
    else if i < |s.grouped| then Joined(|s.delivered| + |s.queue| + i)
    else if j < |s.queue| then Pulled(|s.delivered| + j)
    else Appended
  }

  lemma {:induction false} PullShape<T>(d: seq<T>, q: seq<T>, g: seq<T>, j: nat, p: T)
    requires j < |q|
    ensures var es, k := d + q + g, |d| + j;
      es[k] == q[j] && d + (q[..j] + q[j + 1..]) + (g + [p]) == es[..k] + es[k + 1..] + [p]
  {
  }

  lemma {:induction false} JoinShape<T>(d: seq<T>, q: seq<T>, g: seq<T>, i: nat, p: T)
    requires i < |g|
    ensures var es, k := d + q + g, |d| + |q| + i;
      es[k] == g[i] && d + q + g[i := p] == es[k := p]
  {
  }

  lemma {:induction false} GroupAppends(s: State)
    requires s.next < |s.history| && ChangeOf(s).Appended?
    ensures GroupStep(s).queue == s.queue && GroupStep(s).removed == s.removed
    ensures Elements(GroupStep(s)) == Elements(s) + [Alone(s.history[s.next])]
  {
  }

  lemma {:induction false} GroupJoins(s: State, k: nat)
    requires s.next < |s.history| && ChangeOf(s) == Joined(k)
    ensures s.history[s.next].movedTo && k < |Elements(s)| && MatchingFrom(Elements(s)[k], s.history[s.next])
    ensures GroupStep(s).queue == s.queue && GroupStep(s).removed == s.removed
    ensures Elements(GroupStep(s)) == Elements(s)[k := Pair(Elements(s)[k].event, s.history[s.next])]
  {
    var i := k - |s.delivered| - |s.queue|;
    JoinShape(Elems(Entries(s.delivered)), Elems(s.queue), s.grouped, i, Pair(s.grouped[i].event, s.history[s.next]));
  }

  lemma {:induction false} GroupPulls(s: State, k: nat)
    requires s.next < |s.history| && ChangeOf(s) == Pulled(k)
    ensures |s.delivered| <= k < |s.delivered| + |s.queue| && s.queue[k - |s.delivered|].element == Elements(s)[k]
    ensures s.history[s.next].movedTo && MatchingFrom(Elements(s)[k], s.history[s.next])
    ensures GroupStep(s).queue == s.queue[..k - |s.delivered|] + s.queue[k - |s.delivered| + 1..]
    ensures GroupStep(s).removed == s.removed + {Elements(s)[k]}
    ensures var es := Elements(s);
      Elements(GroupStep(s)) == es[..k] + es[k + 1..] + [Pair(es[k].event, s.history[s.next])]
  {
    var j := k - |s.delivered|;
    var q := s.queue;
    assert Elems(q[..j] + q[j + 1..]) == Elems(q)[..j] + Elems(q)[j + 1..];
    PullShape(Elems(Entries(s.delivered)), Elems(q), s.grouped, j, Pair(q[j].element.event, s.history[s.next]));
  }

  lemma {:induction false} HoldsAppended(es: seq<Element>, h: seq<Event>, n: nat)
    requires Holds(es, h, n) && n < |h|
    ensures Holds(es + [Alone(h[n])], h, n + 1)
  {
    var es' := es + [Alone(h[n])];
    forall ev ensures Count(es', ev) == if Among(h, n + 1, ev) then 1 else 0 {
      assert es'[..|es|] == es;
    }
  }

  lemma {:induction false} HoldsJoined(es: seq<Element>, h: seq<Event>, n: nat, k: nat)
    requires Holds(es, h, n) && n < |h| && k < |es| && MatchingFrom(es[k], h[n]) && h[n].movedTo
    ensures Holds(es[k := Pair(es[k].event, h[n])], h, n + 1)
  {
    var p := Pair(es[k].event, h[n]);
    var es' := es[k := p];
    HeldIsAmong(es, h, n, k, es[k].event);
    forall ev ensures Count(es', ev) == if Among(h, n + 1, ev) then 1 else 0 {
      CountUpdate(es, k, p, ev);
    }
  }

  lemma {:induction false} HoldsPulled(es: seq<Element>, h: seq<Event>, n: nat, k: nat)
    requires Holds(es, h, n) && n < |h| && k < |es| && MatchingFrom(es[k], h[n]) && h[n].movedTo
    ensures Holds(es[..k] + es[k + 1..] + [Pair(es[k].event, h[n])], h, n + 1)
  {
    var p := Pair(es[k].event, h[n]);
    var es' := es[..k] + es[k + 1..] + [p];
    HeldIsAmong(es, h, n, k, es[k].event);
    forall ev ensures Count(es', ev) == if Among(h, n + 1, ev) then 1 else 0 {
      CountMove(es, k, p, ev);
    }
    forall m | 0 <= m < |es'| ensures PairFits(es'[m]) {
      assert es'[m] == if m < k then es[m] else if m < |es| - 1 then es[m + 1] else p;
    }
  }

  lemma {:induction false} GroupConserves(s: State)
    requires Conserved(s) && s.next < |s.history|
    ensures Conserved(GroupStep(s))
  {
    match ChangeOf(s)
    case Appended =>
      GroupAppends(s);
      HoldsAppended(Elements(s), s.history, s.next);
    case Joined(k) =>
      GroupJoins(s, k);
      HoldsJoined(Elements(s), s.history, s.next, k);
    case Pulled(k) =>
      GroupPulls(s, k);
      HoldsPulled(Elements(s), s.history, s.next, k);
  }

  lemma {:induction false} AfterTaking<T>(es: seq<T>, k: nat, p: T, n: nat) returns (n': nat)
    requires k < |es| && n < |es| && n != k
    ensures n' < |es| && (es[..k] + es[k + 1..] + [p])[n'] == es[n]
  {
    n' := if n < k then n else n - 1;
  }

  /** Pairs stay where they are, or move up when an element before them is taken out. */
  lemma {:induction false} GroupKeepsPair(s: State, n: nat) returns (n': nat)
    requires s.next < |s.history| && n < |Elements(s)| && Elements(s)[n].Pair?
    ensures n' < |Elements(GroupStep(s))| && Elements(GroupStep(s))[n'] == Elements(s)[n]
  {
    match ChangeOf(s)
    case Appended => GroupAppends(s); n' := n;
    case Joined(k) => GroupJoins(s, k); n' := n;
    case Pulled(k) =>
      GroupPulls(s, k);
      n' := AfterTaking(Elements(s), k, Pair(Elements(s)[k].event, s.history[s.next]), n);
  }

  lemma {:induction false} GroupKeepsTaken(s: State, e: Element)
    requires s.next < |s.history| && TakenIntoPair(e, Elements(s))
    ensures TakenIntoPair(e, Elements(GroupStep(s)))
  {
    var n :| 0 <= n < |Elements(s)| && Elements(s)[n].Pair? && Elements(s)[n].from == e.event;
    var n' := GroupKeepsPair(s, n);
  }

  lemma {:induction false} GroupKeepsSurvivors(s: State)
    requires Ordered(s) && s.next < |s.history|
    ensures var s' := GroupStep(s);
      Survivors(s'.puts, s'.removed) == Entries(s'.delivered) + s'.queue
  {
    var s' := GroupStep(s);
    match ChangeOf(s)
    case Appended => GroupAppends(s);
    case Joined(k) => GroupJoins(s, k);
    case Pulled(k) =>
      GroupPulls(s, k);
      var all := Entries(s.delivered) + s.queue;
      assert all[k] == s.queue[k - |s.delivered|];
      SurvivorsAfterRemoval(s.puts, s.removed, k);
      assert all[..k] + all[k + 1..] == Entries(s.delivered) + s'.queue;
  }

  lemma {:induction false} GroupKeepsRemoved(s: State, e: Element)
    requires Conserved(s) && Ordered(s) && s.next < |s.history| && e in GroupStep(s).removed
    ensures TakenIntoPair(e, Elements(GroupStep(s)))
  {
    if e in s.removed {
      GroupKeepsTaken(s, e);
    } else {
      match ChangeOf(s)
      case Appended => GroupAppends(s);
      case Joined(k) => GroupJoins(s, k);
      case Pulled(k) =>
        GroupPulls(s, k);
        var es' := Elements(GroupStep(s));
        assert es'[|es'| - 1] == Pair(e.event, s.history[s.next]);
    }
  }

  lemma {:induction false} GroupKeepsOrder(s: State)
    requires Conserved(s) && Ordered(s) && s.next < |s.history|
    ensures Ordered(GroupStep(s))
  {
    GroupKeepsSurvivors(s);
    forall e | e in GroupStep(s).removed ensures TakenIntoPair(e, Elements(GroupStep(s))) {
      GroupKeepsRemoved(s, e);
    }
  }

  /** The element about to be put has never been put before. */
  lemma {:induction false} GroupedIsNotRemoved(s: State)
    requires Conserved(s) && Ordered(s) && s.grouped != []
    ensures s.grouped[0] !in s.removed
  {
    var e, es, n := s.grouped[0], Elements(s), |s.delivered| + |s.queue|;
    assert es[n] == e;
    if e in s.removed {
      var k :| 0 <= k < |es| && es[k].Pair? && es[k].from == e.event;
      HeldOnce(s, n, k, e.event);
      assert false;
    }
  }

  lemma {:induction false} GroupedIsNotPut(s: State, p: Entry<Element>)
    requires Conserved(s) && Ordered(s) && s.grouped != [] && p in s.puts
    ensures p.element != s.grouped[0]
  {
    var e, n := s.grouped[0], |s.delivered| + |s.queue|;
    SurvivorsMembers(s.puts, s.removed);
    GroupedIsNotRemoved(s);
    if p.element == e {
      var all := Entries(s.delivered) + s.queue;
      var k :| 0 <= k < |all| && all[k] == p;
      assert Elements(s)[k] == e && Elements(s)[n] == e;
      HeldOnce(s, n, k, if e.Alone? then e.event else e.from);
      assert false;
    }
  }

  lemma {:induction false} PutIsNew(s: State, delay: real)
    requires Conserved(s) && Ordered(s) && s.grouped != []
    ensures s.grouped[0] !in s.removed
    ensures forall p :: p in s.puts ==> p.element != s.grouped[0]
  {
    GroupedIsNotRemoved(s);
    forall p | p in s.puts ensures p.element != s.grouped[0] {
      GroupedIsNotPut(s, p);
    }
  }

  lemma {:induction false} PutShape(q: seq<Entry<Element>>, g: seq<Element>, entry: Entry<Element>)
    requires g != [] && entry.element == g[0]
    ensures Elems(q + [entry]) + g[1..] == Elems(q) + g
  {
  }

  lemma {:induction false} PutElements(s: State)
    requires s.grouped != []
    ensures Elements(PutStep(s)) == Elements(s)
  {
    var d, q, g := Elems(Entries(s.delivered)), Elems(s.queue), s.grouped;
    var entry := Entry(g[0], s.now, NeedsDelay(g[0]));
    PutShape(s.queue, g, entry);
    assert d + q + g == d + (q + g);
    assert Elements(PutStep(s)) == d + (Elems(s.queue + [entry]) + g[1..]);
  }

  lemma {:induction false} PutKeeps(s: State, delay: real)
    requires Inv(s, delay) && s.grouped != []
    ensures Inv(PutStep(s), delay)
  {
    PutIsNew(s, delay);
    PutElements(s);
    SurvivorsOfFresh(s.puts, s.removed, Entry(s.grouped[0], s.now, NeedsDelay(s.grouped[0])));
  }

  lemma {:induction false} TakeShape(d: seq<Entry<Element>>, q: seq<Entry<Element>>)
    requires q != []
    ensures d + [q[0]] + q[1..] == d + q
    ensures Elems(d + [q[0]]) + Elems(q[1..]) == Elems(d) + Elems(q)
  {
  }

  lemma {:induction false} RecheckElements(s: State)
    requires s.consumer.Holding?
    ensures Elements(RecheckStep(s)) == Elements(s)
    ensures Entries(RecheckStep(s).delivered) + RecheckStep(s).queue == Entries(s.delivered) + s.queue
  {
    if s.queue != [] && s.queue[0].element == s.consumer.entry.element {
      TakeShape(Entries(s.delivered), s.queue);
      assert Entries(RecheckStep(s).delivered) == Entries(s.delivered) + [s.queue[0]];
    }
  }

  /** An entry that is still the head on waking up is the entry that was looked at. */
  lemma {:induction false} HeadIsHeld(s: State)
    requires Ordered(s) && s.consumer.Holding?
    requires s.queue != [] && s.queue[0].element == s.consumer.entry.element
    ensures s.queue[0] == s.consumer.entry
  {
    SurvivorsMembers(s.puts, s.removed);
    assert (Entries(s.delivered) + s.queue)[|s.delivered|] == s.queue[0];
    assert s.queue[0] in s.puts && s.consumer.entry in s.puts;
  }

  lemma {:induction false} RecheckKeeps(s: State, delay: real)
    requires Inv(s, delay) && s.consumer.Holding? && s.now >= ReadyAt(s.consumer.entry, delay)
    ensures Inv(RecheckStep(s), delay)
  {
    RecheckElements(s);
    if s.queue != [] && s.queue[0].element == s.consumer.entry.element {
      HeadIsHeld(s);
    }
  }

  lemma {:induction false} PeekKeeps(s: State, delay: real)
    requires Inv(s, delay) && s.queue != []
    ensures Inv(s.(consumer := Holding(s.queue[0])), delay)
  {
    SurvivorsMembers(s.puts, s.removed);
    assert (Entries(s.delivered) + s.queue)[|s.delivered|] == s.queue[0];
    assert Elements(s.(consumer := Holding(s.queue[0]))) == Elements(s);
  }

  lemma {:induction false} ReadKeeps(s: State, delay: real, more: seq<Event>)
    requires Inv(s, delay)
    requires forall i :: 0 <= i < |more| ==> more[i].id == |s.history| + i
    ensures Inv(s.(history := s.history + more), delay)
  {
    var s' := s.(history := s.history + more);
    assert Elements(s') == Elements(s);
    forall ev ensures Among(s'.history, s.next, ev) == Among(s.history, s.next, ev) {
    }
  }

  lemma {:induction false} IdleKeeps(s: State, s': State, delay: real)
    requires Inv(s, delay) && s.now <= s'.now
    requires s' == s.(now := s'.now, closed := s'.closed)
    ensures Inv(s', delay)
  {
    assert Elements(s') == Elements(s);
  }

  lemma {:induction false} GroupKeeps(s: State, delay: real)
    requires Inv(s, delay) && s.next < |s.history|
    ensures Inv(GroupStep(s), delay)
  {
    GroupConserves(s);
    GroupKeepsOrder(s);
  }

  lemma {:induction false} StepKeeps(delay: real, s: State, step: Step)
    requires Inv(s, delay)
    ensures Inv(Apply(delay, s, step), delay)
  {
    if step.Read? {
      ReadKeeps(s, delay, Stamp(step.batch, |s.history|));
    } else if step.Group? {
      if s.next < |s.history| { GroupKeeps(s, delay); }
    } else if step.PutNext? {
      if s.next == |s.history| && s.grouped != [] { PutKeeps(s, delay); }
    } else if step.Recheck? {
      if s.consumer.Holding? && s.now >= ReadyAt(s.consumer.entry, delay) { RecheckKeeps(s, delay); }
    } else if step.Peek? {
      if s.queue != [] { PeekKeeps(s, delay); }
    } else if step.Tick? {
      if step.elapsed >= 0.0 { IdleKeeps(s, s.(now := s.now + step.elapsed), delay); }
    } else {
      IdleKeeps(s, s.(closed := true), delay);
    }
  }

  lemma {:induction false} RunKeeps(delay: real, steps: seq<Step>)
    ensures Inv(Run(delay, steps), delay)
    decreases |steps|
  {
    if steps != [] {
      RunKeeps(delay, steps[..|steps| - 1]);
      StepKeeps(delay, Run(delay, steps[..|steps| - 1]), steps[|steps| - 1]);
    }
  }
}
