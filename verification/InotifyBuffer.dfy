/**
 Grouping of raw inotify events: an IN_MOVED_TO is joined with its IN_MOVED_FROM, found
 either earlier in the same batch or still waiting in the delayed queue.
 */
module InotifyBuffers {
  import opened Common
  import opened DelayedQueues

  /** `id` is the identity of the event object; the flags are the mask bits that matter here. */
  datatype Event = Event(id: nat, movedFrom: bool, movedTo: bool, cookie: nat, deletesRoot: bool)

  /** What the queue carries: one event, or the tuple made from the two halves of a rename. */
  datatype Element = Alone(event: Event) | Pair(from: Event, to: Event)

  predicate MatchingFrom(e: Element, ev: Event) {
    e.Alone? && e.event.movedFrom && e.event.cookie == ev.cookie
  }

  /** The closure that the grouping loop hands to the queue. */
  function Matcher(ev: Event): Element -> bool {
    (e: Element) => MatchingFrom(e, ev)
  }

  predicate NeedsDelay(e: Element) {
    e.Alone? && e.event.movedFrom
  }

  function FirstGrouped(grouped: seq<Element>, ev: Event): (i: nat)
    ensures i <= |grouped|
    ensures i < |grouped| ==> MatchingFrom(grouped[i], ev)
    ensures forall k :: 0 <= k < i ==> !MatchingFrom(grouped[k], ev)
  {
    if grouped == [] then 0
    else if MatchingFrom(grouped[0], ev) then 0
    else 1 + FirstGrouped(grouped[1..], ev)
  }

  function FirstQueued(queue: seq<Entry<Element>>, ev: Event): (j: nat)
    ensures j <= |queue|
    ensures j < |queue| ==> MatchingFrom(queue[j].element, ev)
    ensures forall k :: 0 <= k < j ==> !MatchingFrom(queue[k].element, ev)
  {
    FirstIndex(queue, Matcher(ev))
  }

  datatype Grouping = Grouping(grouped: seq<Element>, queue: seq<Entry<Element>>)

  /** One event grouped against the batch so far and the shared queue. */
  function GroupOne(g: Grouping, ev: Event): Grouping {
    if !ev.movedTo then
      g.(grouped := g.grouped + [Alone(ev)])
    else
      var i := FirstGrouped(g.grouped, ev);
      if i < |g.grouped| then
        g.(grouped := g.grouped[i := Pair(g.grouped[i].event, ev)])
      else
        var j := FirstQueued(g.queue, ev);
        if j < |g.queue| then
          Grouping(g.grouped + [Pair(g.queue[j].element.event, ev)], g.queue[..j] + g.queue[j + 1..])
        else
          g.(grouped := g.grouped + [Alone(ev)])
  }

  function GroupAll(g: Grouping, events: seq<Event>): Grouping
    decreases |events|
  {
    if events == [] then g
    else GroupOne(GroupAll(g, events[..|events| - 1]), events[|events| - 1])
  }

  /** The halves of a rename meet in the batch, before the queue is looked at, and in the place of the first half. */
  lemma {:induction false} BatchIsSearchedFirst(g: Grouping, ev: Event, i: nat)
    requires ev.movedTo && i < |g.grouped| && MatchingFrom(g.grouped[i], ev)
    requires forall k :: 0 <= k < i ==> !MatchingFrom(g.grouped[k], ev)
    ensures GroupOne(g, ev) == Grouping(g.grouped[..i] + [Pair(g.grouped[i].event, ev)] + g.grouped[i + 1..], g.queue)
  {
    assert FirstGrouped(g.grouped, ev) == i;
  }

  /** A half that waits in the queue is taken out of it, and the pair is put in the batch. */
  lemma {:induction false} QueueIsSearchedNext(g: Grouping, ev: Event, j: nat)
    requires ev.movedTo && forall k :: 0 <= k < |g.grouped| ==> !MatchingFrom(g.grouped[k], ev)
    requires j < |g.queue| && MatchingFrom(g.queue[j].element, ev)
    requires forall k :: 0 <= k < j ==> !MatchingFrom(g.queue[k].element, ev)
    ensures GroupOne(g, ev) == Grouping(g.grouped + [Pair(g.queue[j].element.event, ev)], g.queue[..j] + g.queue[j + 1..])
  {
    assert FirstQueued(g.queue, ev) == j;
  }

  /** The entries of successive puts; each put reads the clock for itself. */
  function EntriesFor(elements: seq<Element>, clock: nat -> real): (r: seq<Entry<Element>>)
    ensures |r| == |elements|
  {
    seq(|elements|, i requires 0 <= i < |elements| => Entry(elements[i], clock(i), NeedsDelay(elements[i])))
  }

  /** The watched root is among the deleted. */
  predicate DeletesRoot(elements: seq<Element>) {
    exists i :: 0 <= i < |elements| && elements[i].Alone? && elements[i].event.deletesRoot
  }

  class InotifyBuffer {
    const queue: DelayedQueue<Element>

    constructor (delay: real)
      ensures fresh(queue) && queue.queue == [] && !queue.closed && queue.delaySec == delay
    {
      queue := new DelayedQueue(delay);
    }

    method GroupEvents(eventList: seq<Event>) returns (grouped: seq<Element>)
      modifies queue`queue
      ensures Grouping(grouped, queue.queue) == GroupAll(Grouping([], old(queue.queue)), eventList)
    {
      grouped := [];
      for n := 0 to |eventList|
        invariant Grouping(grouped, queue.queue) == GroupAll(Grouping([], old(queue.queue)), eventList[..n])
      {
        assert eventList[..n + 1][..n] == eventList[..n];
        var ev := eventList[n];
        if ev.movedTo {
          var matched := false;
          var index := 0;
          while index < |grouped|
            invariant index <= |grouped|
            invariant forall k :: 0 <= k < index ==> !MatchingFrom(grouped[k], ev)
          {
            if MatchingFrom(grouped[index], ev) {
              matched := true;
              break;
            }
            index := index + 1;
          }
          assert index == FirstGrouped(grouped, ev);
          if matched {
            grouped := grouped[index := Pair(grouped[index].event, ev)];
          } else {
            var fromEvent := queue.Remove(Matcher(ev));
            if fromEvent.Some? {
              grouped := grouped + [Pair(fromEvent.value.event, ev)];
            } else {
              grouped := grouped + [Alone(ev)];
            }
          }
        } else {
          grouped := grouped + [Alone(ev)];
        }
      }
      assert eventList[..|eventList|] == eventList;
    }

    /** One round of `run` on the events read: group them, then put every group. */
    method RunRound(events: seq<Event>, clock: nat -> real) returns (deletedSelf: bool)
      modifies queue`queue
      ensures var g := GroupAll(Grouping([], old(queue.queue)), events);
        queue.queue == g.queue + EntriesFor(g.grouped, clock) && deletedSelf == DeletesRoot(g.grouped)
    {
      deletedSelf := false;
      var grouped := GroupEvents(events);
      ghost var base := queue.queue;
      for n := 0 to |grouped|
        invariant queue.queue == base + EntriesFor(grouped, clock)[..n]
        invariant deletedSelf <==> exists i :: 0 <= i < n && grouped[i].Alone? && grouped[i].event.deletesRoot
      {
        queue.Put(grouped[n], clock(n), NeedsDelay(grouped[n]));
        if grouped[n].Alone? && grouped[n].event.deletesRoot {
          deletedSelf := true;
        }
      }
    }
  }
}
