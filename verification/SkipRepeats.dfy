/**
 The event queue that drops an item equal to the one put last, as long as that one waits.
 Items compare by value when put and by identity when taken, so both are modelled.
 */
module SkipRepeats {
  import opened Common

  /** An object with its identity; equal identities mean the same object. */
  datatype Item<T> = Item(id: nat, value: T)

  datatype Queue<T> = Queue(items: seq<Item<T>>, last: Option<Item<T>>, unfinished: int)

  /** `put`: it counts a task after `_put`, which takes one off when it drops the item. */
  function Put<T(==)>(q: Queue<T>, item: Item<T>): Queue<T> {
    if q.last.Some? && q.last.value.value == item.value then q
    else Queue(q.items + [item], Some(item), q.unfinished + 1)
  }

  /** `get`: forgets the last item when that very object leaves. */
  function Get<T>(q: Queue<T>): Queue<T>
    requires q.items != []
  {
    Queue(q.items[1..], if q.last.Some? && q.last.value.id == q.items[0].id then None else q.last, q.unfinished)
  }

  class SkipRepeatsQueue<T(==)> {
    var queue: seq<Item<T>>
    var lastItem: Option<Item<T>>
    var unfinishedTasks: int

    function State(): Queue<T>
      reads this
    {
      Queue(queue, lastItem, unfinishedTasks)
    }

    constructor ()
      ensures State() == Queue([], None, 0)
    {
      queue, lastItem, unfinishedTasks := [], None, 0;
    }

    method PutItem(item: Item<T>)
      modifies this
      ensures State() == Put(old(State()), item)
    {
      if lastItem.None? || item.value != lastItem.value.value {
        queue := queue + [item];
        lastItem := Some(item);
      } else {
        unfinishedTasks := unfinishedTasks - 1;
      }
      unfinishedTasks := unfinishedTasks + 1;
    }

    /** Nothing is given when the queue is empty. */
    method GetItem() returns (r: Option<Item<T>>)
      modifies this
      ensures old(queue) == [] ==> r == None && State() == old(State())
      ensures old(queue) != [] ==> r == Some(old(queue)[0]) && State() == Get(old(State()))
    {
      if queue == [] { return None; }
      var item := queue[0];
      queue := queue[1..];
      if lastItem.Some? && item.id == lastItem.value.id {
        lastItem := None;
      }
      return Some(item);
    }

    /** Refused when there is no task to finish. */
    method TaskDone() returns (ok: bool)
      modifies this`unfinishedTasks
      ensures ok <==> old(unfinishedTasks) > 0
      ensures unfinishedTasks == if ok then old(unfinishedTasks) - 1 else old(unfinishedTasks)
    {
      var left := unfinishedTasks - 1;
      if left < 0 { return false; }
      unfinishedTasks := left;
      return true;
    }
  }

  // ----- runs -----

  datatype Step<T> = PutStep(item: Item<T>) | GetStep | DoneStep

  /** The queue with everything that was put, everything that was taken, and how many were done. */
  datatype Run<T> = Run(queue: Queue<T>, puts: seq<Item<T>>, taken: seq<Item<T>>, done: nat)

  function Next<T(==)>(r: Run<T>, s: Step<T>): Run<T> {
    match s
    case PutStep(item) => r.(queue := Put(r.queue, item), puts := r.puts + [item])
    case GetStep =>
      if r.queue.items == [] then r else r.(queue := Get(r.queue), taken := r.taken + [r.queue.items[0]])
    case DoneStep =>
      if r.queue.unfinished <= 0 then r
      else r.(queue := r.queue.(unfinished := r.queue.unfinished - 1), done := r.done + 1)
  }

  function After<T(==)>(steps: seq<Step<T>>): Run<T>
    decreases |steps|
  {
    if steps == [] then Run(Queue([], None, 0), [], [], 0)
    else Next(After(steps[..|steps| - 1]), steps[|steps| - 1])
  }

  function Values<T>(items: seq<Item<T>>): (vs: seq<T>)
    ensures |vs| == |items| && forall i :: 0 <= i < |items| ==> vs[i] == items[i].value
  {
    seq(|items|, i requires 0 <= i < |items| => items[i].value)
  }

  /** Equal neighbours made one. */
  function Collapse<T(==)>(s: seq<T>): seq<T>
    decreases |s|
  {
    if |s| <= 1 then s else if s[0] == s[1] then Collapse(s[1..]) else [s[0]] + Collapse(s[1..])
  }

  lemma {:induction false} CollapseAppend<T>(s: seq<T>, x: T)
    requires s != []
    ensures Collapse(s + [x]) == if s[|s| - 1] == x then Collapse(s) else Collapse(s) + [x]
    ensures Collapse(s) != [] && Collapse(s)[|Collapse(s)| - 1] == s[|s| - 1]
    decreases |s|
  {
    var t := s + [x];
    assert t[1..] == s[1..] + [x];
    if |s| == 1 {
      assert t[1..] == [x];
      assert Collapse(t[1..]) == [x];
    } else {
      var rest := s[1..];
      CollapseAppend(rest, x);
      assert rest[|rest| - 1] == s[|s| - 1];
      assert Collapse(t) == if s[0] == s[1] then Collapse(rest + [x]) else [s[0]] + Collapse(rest + [x]) by {
        assert t[0] == s[0] && t[1] == s[1];
      }
      Associative([s[0]], Collapse(rest), [x]);
    }
  }

  /** The last item remembered is the one that waits at the end. */
  predicate LastIsTail<T(==)>(q: Queue<T>) {
    q.last.Some? ==> q.items != [] && q.last.value == q.items[|q.items| - 1]
  }

  ghost predicate SameCollapsed<T>(r: Run<T>) {
    Collapse(Values(r.taken + r.queue.items)) == Collapse(Values(r.puts))
  }

  predicate CountsTasks<T>(r: Run<T>) {
    r.queue.unfinished == |r.queue.items| + |r.taken| - r.done
  }

  lemma {:induction false} ValuesAppend<T>(items: seq<Item<T>>, item: Item<T>)
    ensures Values(items + [item]) == Values(items) + [item.value]
  {
  }

  lemma {:induction false} PutKeepsCollapsed<T>(r: Run<T>, item: Item<T>)
    requires LastIsTail(r.queue) && SameCollapsed(r)
    ensures SameCollapsed(Next(r, PutStep(item)))
  {
    var all, puts := r.taken + r.queue.items, r.puts;
    var next := Next(r, PutStep(item));
    ValuesAppend(puts, item);
    if puts != [] {
      CollapseAppend(Values(puts), item.value);
    }
    if all != [] {
      CollapseAppend(Values(all), item.value);
    }
    if next.queue.items != r.queue.items {
      assert next.taken + next.queue.items == all + [item];
      ValuesAppend(all, item);
    }
  }

  /**
   Over every run: what was taken and what waits, equal neighbours made one, is what was put,
   equal neighbours made one; and the unfinished tasks are the waiting ones and those taken but
   not done.
   */
  lemma {:induction false} RunKeeps<T>(steps: seq<Step<T>>)
    ensures LastIsTail(After(steps).queue) && SameCollapsed(After(steps)) && CountsTasks(After(steps))
    decreases |steps|
  {
    if steps == [] {
    } else {
      var r, s := After(steps[..|steps| - 1]), steps[|steps| - 1];
      RunKeeps(steps[..|steps| - 1]);
      match s
      case PutStep(item) => PutKeepsCollapsed(r, item);
      case GetStep =>
        if r.queue.items != [] {
          assert r.taken + [r.queue.items[0]] + r.queue.items[1..] == r.taken + r.queue.items;
        }
      case DoneStep =>
    }
  }

  // ----- when no two equal items wait side by side -----

  predicate NoRepeats<T(==)>(items: seq<Item<T>>) {
    forall i :: 0 <= i < |items| - 1 ==> items[i].value != items[i + 1].value
  }

  predicate Waits<T>(q: Queue<T>, id: nat) {
    exists i :: 0 <= i < |q.items| && q.items[i].id == id
  }

  /** The item at the end is remembered, and that object waits nowhere else. */
  predicate Guarded<T(==)>(q: Queue<T>) {
    q.items != [] ==>
      var tail := q.items[|q.items| - 1];
      q.last == Some(tail) && forall i :: 0 <= i < |q.items| - 1 ==> q.items[i].id != tail.id
  }

  /** No object is put that still waits. */
  predicate FreshPuts<T(==)>(steps: seq<Step<T>>) {
    forall n :: 0 <= n < |steps| && steps[n].PutStep? ==> !Waits(After(steps[..n]).queue, steps[n].item.id)
  }

  ghost predicate Safe<T>(q: Queue<T>) {
    NoRepeats(q.items) && Guarded(q) && LastIsTail(q)
  }

  lemma {:induction false} FreshPutSafe<T>(q: Queue<T>, item: Item<T>)
    requires Safe(q) && !Waits(q, item.id)
    ensures Safe(Put(q, item))
  {
    var next := Put(q, item);
    assert forall i :: 0 <= i < |q.items| ==> next.items[i] == q.items[i];
  }

  lemma {:induction false} GetSafe<T>(q: Queue<T>)
    requires Safe(q) && q.items != []
    ensures Safe(Get(q))
  {
    assert forall i :: 0 <= i < |q.items| - 1 ==> Get(q).items[i] == q.items[i + 1];
  }

  /** With fresh objects, as every queued event is, the queue never holds two equal neighbours. */
  lemma {:induction false} FreshNeverRepeats<T>(steps: seq<Step<T>>)
    requires FreshPuts(steps)
    ensures Safe(After(steps).queue)
    decreases |steps|
  {
    if steps != [] {
      var front, s := steps[..|steps| - 1], steps[|steps| - 1];
      forall n | 0 <= n < |front| && front[n].PutStep? ensures !Waits(After(front[..n]).queue, front[n].item.id) {
        assert front[..n] == steps[..n] && front[n] == steps[n];
      }
      FreshNeverRepeats(front);
      assert steps[..|front|] == front;
      var q := After(front).queue;
      if s.PutStep? {
        FreshPutSafe(q, s.item);
      } else if s.GetStep? && q.items != [] {
        GetSafe(q);
      }
    }
  }

  function Gets<T>(q: Queue<T>, k: nat): Queue<T>
    requires k <= |q.items|
    ensures Gets(q, k).items == q.items[k..]
    decreases k
  {
    if k == 0 then q else Get(Gets(q, k - 1))
  }

  lemma {:induction false} GetsLast<T>(q: Queue<T>, k: nat)
    requires k <= |q.items|
    ensures Gets(q, k).last ==
      if q.last.Some? && exists i :: 0 <= i < k && q.items[i].id == q.last.value.id then None else q.last
    decreases k
  {
    if k > 0 {
      GetsLast(q, k - 1);
    }
  }

  /** An identity above all those waiting. */
  function NewId<T>(items: seq<Item<T>>): (id: nat)
    ensures forall i :: 0 <= i < |items| ==> items[i].id < id
    decreases |items|
  {
    if items == [] then 0
    else
      var front, last := NewId(items[..|items| - 1]), items[|items| - 1].id;
      if last < front then front else last + 1
  }

  /** After some gets a single put of a new object makes two equal neighbours wait. */
  ghost predicate CanRepeat<T(!new)>(q: Queue<T>) {
    exists k: nat, item: Item<T> :: k <= |q.items| && !Waits(q, item.id) && !NoRepeats(Put(Gets(q, k), item).items)
  }

  lemma {:induction false} UnguardedRepeats<T(!new)>(q: Queue<T>)
    requires LastIsTail(q) && !Guarded(q)
    ensures CanRepeat(q)
  {
    var n := |q.items| - 1;
    var tail := q.items[n];
    var item := Item(NewId(q.items), tail.value);
    assert !Waits(q, item.id);
    GetsLast(q, n);
    assert Gets(q, n).items == [tail] && Gets(q, n).last == None;
    var items := Put(Gets(q, n), item).items;
    assert items == [tail, item] && items[0].value == items[0 + 1].value;
  }

  lemma {:induction false} GuardedPut<T>(q: Queue<T>, k: nat, item: Item<T>)
    requires LastIsTail(q) && NoRepeats(q.items) && Guarded(q) && k <= |q.items|
    ensures NoRepeats(Put(Gets(q, k), item).items)
  {
    GetsLast(q, k);
    var left := Gets(q, k).items;
    assert forall i :: 0 <= i < |left| ==> left[i] == q.items[k + i];
  }

  /**
   A queue without equal neighbours is safe from them exactly if it is guarded: the object at its
   end is remembered and waits nowhere else.
   */
  lemma {:induction false} RepeatsIffUnguarded<T(!new)>(q: Queue<T>)
    requires LastIsTail(q) && NoRepeats(q.items)
    ensures CanRepeat(q) <==> !Guarded(q)
  {
    if Guarded(q) {
      forall k: nat, item: Item<T> | k <= |q.items| && !Waits(q, item.id) ensures NoRepeats(Put(Gets(q, k), item).items) {
        GuardedPut(q, k, item);
      }
    } else {
      UnguardedRepeats(q);
    }
  }

  /** An object put again while it waits: when its first place comes up, the queue forgets its last item. */
  lemma {:induction false} ReusedObjectRepeats<T>(a: Item<T>, b: Item<T>)
    requires a.value != b.value && a.id != b.id
    ensures var steps := [PutStep(a), PutStep(b), PutStep(a), GetStep, PutStep(a)];
      After(steps).queue.items == [b, a, a]
  {
    var steps := [PutStep(a), PutStep(b), PutStep(a), GetStep, PutStep(a)];
    var r1 := Next(After([]), PutStep(a));
    assert steps[..1][..0] == [] && After(steps[..1]) == r1;
    assert steps[..2][..1] == steps[..1] && After(steps[..2]).queue.items == [a, b];
    assert steps[..3][..2] == steps[..2] && After(steps[..3]).queue == Queue([a, b, a], Some(a), 3);
    assert steps[..4][..3] == steps[..3] && After(steps[..4]).queue == Queue([b, a], None, 3);
    assert steps[..5] == steps && steps[..4] == steps[..|steps| - 1];
  }
}
