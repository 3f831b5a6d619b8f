/** What several modules use. */
module Common {

  datatype Option<+T> = None | Some(value: T)

  predicate Distinct<T(==)>(s: seq<T>) {
    forall i, j :: 0 <= i < j < |s| ==> s[i] != s[j]
  }

  lemma Associative<T>(a: seq<T>, b: seq<T>, c: seq<T>)
    ensures a + b + c == a + (b + c)
  {
  }

  /** How often `x` occurs. */
  function Count<T(==)>(s: seq<T>, x: T): nat
    decreases |s|
  {
    if s == [] then 0 else Count(s[..|s| - 1], x) + if s[|s| - 1] == x then 1 else 0
  }

  lemma CountSnoc<T>(s: seq<T>, y: T, x: T)
    ensures Count(s + [y], x) == Count(s, x) + if y == x then 1 else 0
  {
    assert (s + [y])[..|s|] == s;
  }

  lemma {:induction false} CountAppend<T>(a: seq<T>, b: seq<T>, x: T)
    ensures Count(a + b, x) == Count(a, x) + Count(b, x)
    decreases |b|
  {
    if b == [] {
      assert a + b == a;
    } else {
      CountAppend(a, b[..|b| - 1], x);
      assert (a + b)[..|a + b| - 1] == a + b[..|b| - 1];
    }
  }

  lemma {:induction false} CountIn<T>(s: seq<T>, x: T)
    ensures Count(s, x) > 0 <==> x in s
    decreases |s|
  {
    if s != [] {
      CountIn(s[..|s| - 1], x);
      assert s == s[..|s| - 1] + [s[|s| - 1]];
    }
  }

  lemma {:induction false} DistinctIffCounts<T(!new)>(s: seq<T>)
    ensures Distinct(s) <==> forall x :: Count(s, x) <= 1
    decreases |s|
  {
    if s != [] {
      var front, last := s[..|s| - 1], s[|s| - 1];
      assert s == front + [last];
      DistinctIffCounts(front);
      CountIn(front, last);
      if Distinct(s) {
        assert forall i :: 0 <= i < |front| ==> front[i] == s[i] && front[i] != last;
        assert Distinct(front);
        forall x ensures Count(s, x) <= 1 { assert Count(front, x) <= 1; }
      } else if Distinct(front) {
        assert Count(s, last) > 1;
      } else {
        var x :| Count(front, x) > 1;
        assert Count(s, x) > 1;
      }
    }
  }
}
