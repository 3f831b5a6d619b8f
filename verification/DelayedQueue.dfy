/**
 The delayed queue: a list of elements, each stored with its insertion time and a flag
 saying whether the consumer has to let the delay pass first.  The consumer takes an
 element in two critical sections, `Peek` and `TryPop`, and sleeps in between without the
 lock, so the producer can remove the very element the consumer is sleeping on.

 Equality of elements of type `T` stands for object identity.
 */
module DelayedQueues {
  import opened Common

  datatype Entry<T> = Entry(element: T, insertTime: real, delayed: bool)

  datatype PeekResult<T> = Waiting | Closed | Head(entry: Entry<T>)

  /** The position of the first entry whose element satisfies `p`, or `|q|`. */
  function FirstIndex<T>(q: seq<Entry<T>>, p: T -> bool): (i: nat)
    ensures i <= |q|
    ensures i < |q| ==> p(q[i].element)
    ensures forall k :: 0 <= k < i ==> !p(q[k].element)
  {
    if q == [] then 0
    else if p(q[0].element) then 0
    else 1 + FirstIndex(q[1..], p)
  }

  /** The moment from which the consumer may take an entry. */
  function ReadyAt<T>(e: Entry<T>, delay: real): real {
    if e.delayed then e.insertTime + delay else e.insertTime
  }

  class DelayedQueue<T(==)> {
    const delaySec: real
    var queue: seq<Entry<T>>
    var closed: bool

    constructor (delay: real)
      ensures queue == [] && !closed && delaySec == delay
    {
      delaySec, queue, closed := delay, [], false;
    }

    method Put(element: T, now: real, delay: bool)
      modifies this`queue
      ensures queue == old(queue) + [Entry(element, now, delay)]
    {
      queue := queue + [Entry(element, now, delay)];
    }

    method Close()
      modifies this`closed
      ensures closed
    {
      closed := true;
    }

    /** First critical section of `get`: look at the head and remember it. */
    method Peek() returns (r: PeekResult<T>)
      ensures r == if closed then Closed else if queue == [] then Waiting else Head(queue[0])
    {
      if |queue| == 0 && !closed {
        return Waiting;
      }
      if closed {
        return Closed;
      }
      r := Head(queue[0]);
    }

    /** The sleep of `get` ends as soon as the clock shows that the delay has passed. */
    method DelayPassed(head: Entry<T>, now: real) returns (passed: bool)
      ensures passed <==> !head.delayed || now >= head.insertTime + delaySec
    {
      passed := true;
      if head.delayed {
        var timeLeft := head.insertTime + delaySec - now;
        passed := !(timeLeft > 0.0);
      }
    }

    /** Second critical section of `get`: take the remembered head if it is still the head. */
    method TryPop(head: T) returns (popped: bool)
      modifies this`queue
      ensures popped <==> old(queue) != [] && old(queue)[0].element == head
      ensures queue == if popped then old(queue)[1..] else old(queue)
    {
      popped := false;
      if |queue| > 0 && queue[0].element == head {
        queue := queue[1..];
        popped := true;
      }
    }

    /** Takes out the first element satisfying `wanted`, whatever its delay. */
    method Remove(wanted: T -> bool) returns (r: Option<T>)
      modifies this`queue
      ensures var i := FirstIndex(old(queue), wanted);
        if i < |old(queue)|
        then r == Some(old(queue)[i].element) && queue == old(queue)[..i] + old(queue)[i + 1..]
        else r == None && queue == old(queue)
    {
      var i := 0;
      while i < |queue|
        invariant i <= |queue| && queue == old(queue)
        invariant forall k :: 0 <= k < i ==> !wanted(queue[k].element)
      {
        if wanted(queue[i].element) {
          assert i == FirstIndex(queue, wanted);
          r := Some(queue[i].element);
          queue := queue[..i] + queue[i + 1..];
          return;
        }
        i := i + 1;
      }
      r := None;
    }
  }
}
