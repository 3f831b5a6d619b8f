/**
 Whether printing keeps the meaning of a marker is a matter of its shape: of where there are lists
 and which of `and` and `or` stands between operands, whatever the comparisons are.
 */
module MarkerShapes {
  import opened Common
  import opened Markers

  /** The same lists and words, with any comparisons. */
  predicate SameShape(a: seq<Mark>, b: seq<Mark>)
    decreases a
  {
    |a| == |b| && (a != [] ==> SameShapeOne(a[0], b[0]) && SameShape(a[1..], b[1..]))
  }

  predicate SameShapeOne(m: Mark, n: Mark)
    decreases m
  {
    match m
    case Item(_, _, _) => n.Item?
    case Word(_) => n == m
    case List(elems) => n.List? && SameShape(elems, n.elems)
  }

  // ----- shape and printing -----

  lemma {:induction false} ShapeAppend(a: seq<Mark>, b: seq<Mark>, c: seq<Mark>, d: seq<Mark>)
    requires SameShape(a, b) && SameShape(c, d)
    ensures SameShape(a + c, b + d)
    decreases |a|
  {
    if a == [] {
      assert a + c == c && b + d == d;
    } else {
      ShapeAppend(a[1..], b[1..], c, d);
      assert (a + c)[1..] == a[1..] + c && (b + d)[1..] == b[1..] + d;
    }
  }

  lemma {:induction false} ShapeOr(a: seq<Mark>, b: seq<Mark>)
    requires SameShape(a, b)
    ensures Word(Or) in a <==> Word(Or) in b
    decreases |a|
  {
    if a != [] {
      ShapeOr(a[1..], b[1..]);
      assert a == [a[0]] + a[1..] && b == [b[0]] + b[1..];
      assert SameShapeOne(a[0], b[0]);
    }
  }

  lemma {:induction false} ShapeWraps(a: seq<Mark>, b: seq<Mark>)
    requires SameShape(a, b)
    ensures Wraps(a) <==> Wraps(b)
    ensures Wraps(a) && a[0].List? <==> Wraps(b) && b[0].List?
  {
  }

  lemma {:induction false} ShapeSingle(m: Mark, n: Mark)
    requires SameShapeOne(m, n)
    ensures SameShape([m], [n])
  {
    assert [m][1..] == [] && [n][1..] == [];
  }

  lemma {:induction false} ShapeRereadOne(m: Mark, n: Mark)
    requires SameShapeOne(m, n)
    ensures SameShape(RereadOne(m), RereadOne(n))
    decreases m, 3
  {
    if m.List? {
      ShapeWraps(m.elems, n.elems);
      ShapeReread(m.elems, n.elems);
      ShapeRereadAll(m.elems, n.elems);
      ShapeSingle(List(RereadAll(m.elems)), List(RereadAll(n.elems)));
    } else {
      ShapeSingle(m, n);
    }
  }

  lemma {:induction false} ShapeRereadAll(a: seq<Mark>, b: seq<Mark>)
    requires SameShape(a, b)
    ensures SameShape(RereadAll(a), RereadAll(b))
    decreases a, 1
  {
    if a != [] {
      ShapeRereadOne(a[0], b[0]);
      ShapeRereadAll(a[1..], b[1..]);
      ShapeAppend(RereadOne(a[0]), RereadOne(b[0]), RereadAll(a[1..]), RereadAll(b[1..]));
    }
  }

  lemma {:induction false} ShapeReread(a: seq<Mark>, b: seq<Mark>)
    requires SameShape(a, b)
    ensures SameShape(Reread(a), Reread(b))
    decreases a, 2
  {
    if Wraps(a) && a[0].List? {
      ShapeReread(a[0].elems, b[0].elems);
    } else {
      ShapeRereadAll(a, b);
    }
  }

  lemma {:induction false} ShapeOpensOr(m: Mark, n: Mark)
    requires SameShapeOne(m, n)
    ensures OpensOr(m) <==> OpensOr(n)
  {
    ShapeRereadOne(m, n);
    ShapeOr(RereadOne(m), RereadOne(n));
  }

  lemma {:induction false} ShapeHarmless(a: seq<Mark>, b: seq<Mark>)
    requires SameShape(a, b)
    ensures Harmless(a) <==> Harmless(b)
    decreases a, 2
  {
    if Wraps(a) && a[0].List? {
      ShapeHarmless(a[0].elems, b[0].elems);
    } else {
      ShapeHarmlessIn(a, b, false);
    }
  }

  lemma {:induction false} ShapeHarmlessIn(a: seq<Mark>, b: seq<Mark>, afterAnd: bool)
    requires SameShape(a, b)
    ensures HarmlessIn(a, afterAnd) <==> HarmlessIn(b, afterAnd)
    decreases a, 1
  {
    if a != [] {
      var m, n := a[0], b[0];
      if m.Word? {
        ShapeHarmlessIn(a[1..], b[1..], m.word.And?);
      } else {
        ShapeHarmlessIn(a[1..], b[1..], false);
        ShapeOpensOr(m, n);
        if m.List? { ShapeHarmless(m.elems, n.elems); }
        if |a| > 1 { assert SameShapeOne(a[1..][0], b[1..][0]); }
      }
    }
  }

  // ----- comparisons with a given value -----

  /** A comparison that holds or does not, in the environment below. */
  function Given(holds: bool): Mark {
    Item(Variable("extra"), "==", Value(if holds then "1" else "0"))
  }

  const ENV: Environment := map["extra" := ""]

  function Decide(lhs: string, op: string, rhs: string): Verdict {
    Truth(rhs == "1")
  }

  function Decided(elems: seq<Mark>): Verdict {
    Meaning(elems, ENV, Decide)
  }

  function FirstDecided(elems: seq<Mark>): Verdict {
    First(elems, ENV, Decide)
  }

  function OthersDecided(elems: seq<Mark>): Verdict {
    Others(elems, ENV, Decide)
  }

  /** All comparisons hold, or none. */
  function FillOne(m: Mark, holds: bool): Mark
    decreases m
  {
    match m
    case Item(_, _, _) => Given(holds)
    case Word(_) => m
    case List(elems) => List(Fill(elems, holds))
  }

  function Fill(elems: seq<Mark>, holds: bool): seq<Mark>
    decreases elems
  {
    if elems == [] then [] else [FillOne(elems[0], holds)] + Fill(elems[1..], holds)
  }

  lemma {:induction false} GivenIsShaped(holds: bool)
    ensures ShapedOperand(Given(holds))
  {
    AliasIsCanonical("extra");
    assert LooksModern("extra") || "extra" !in ALIASES;
  }

  lemma {:induction false} FillKeepsShape(elems: seq<Mark>, holds: bool)
    ensures SameShape(elems, Fill(elems, holds))
    decreases elems
  {
    if elems != [] {
      FillOneKeepsShape(elems[0], holds);
      FillKeepsShape(elems[1..], holds);
      assert Fill(elems, holds)[1..] == Fill(elems[1..], holds);
    }
  }

  lemma {:induction false} FillOneKeepsShape(m: Mark, holds: bool)
    ensures SameShapeOne(m, FillOne(m, holds))
    decreases m
  {
    if m.List? { FillKeepsShape(m.elems, holds); }
  }

  lemma {:induction false} FillOneIsShaped(m: Mark, holds: bool)
    requires ShapedOperand(m)
    ensures ShapedOperand(FillOne(m, holds))
    decreases m
  {
    if m.List? { FillIsShaped(m.elems, holds); } else { GivenIsShaped(holds); }
  }

  lemma {:induction false} FillIsShaped(elems: seq<Mark>, holds: bool)
    requires Shaped(elems)
    ensures Shaped(Fill(elems, holds))
    decreases elems
  {
    FillOneIsShaped(elems[0], holds);
    if |elems| > 1 {
      FillTail(elems, holds);
      FillIsShaped(elems[2..], holds);
      ShapedJoin([FillOne(elems[0], holds)], elems[1].word, Fill(elems[2..], holds));
    } else {
      assert Fill(elems[1..], holds) == [];
      assert Fill(elems, holds) == [FillOne(elems[0], holds)];
    }
  }

  lemma {:induction false} FillTail(elems: seq<Mark>, holds: bool)
    requires |elems| > 1 && elems[1].Word?
    ensures Fill(elems, holds) == [FillOne(elems[0], holds)] + [Word(elems[1].word)] + Fill(elems[2..], holds)
  {
    assert elems[1..][0] == elems[1] && elems[1..][1..] == elems[2..];
    assert Fill(elems[1..], holds) == [Word(elems[1].word)] + Fill(elems[2..], holds);
    Associative([FillOne(elems[0], holds)], [Word(elems[1].word)], Fill(elems[2..], holds));
  }

  lemma {:induction false} FillAppend(a: seq<Mark>, b: seq<Mark>, holds: bool)
    ensures Fill(a + b, holds) == Fill(a, holds) + Fill(b, holds)
    decreases |a|
  {
    if a == [] {
      assert a + b == b;
    } else {
      FillAppend(a[1..], b, holds);
      assert (a + b)[1..] == a[1..] + b;
    }
  }

  // ----- printing and filling -----

  lemma {:induction false} RereadOneFilled(m: Mark, holds: bool)
    ensures RereadOne(FillOne(m, holds)) == Fill(RereadOne(m), holds)
    decreases m, 3
  {
    if m.List? {
      FillKeepsShape(m.elems, holds);
      RereadFilled(m.elems, holds);
      RereadAllFilled(m.elems, holds);
    }
  }

  lemma {:induction false} RereadAllFilled(elems: seq<Mark>, holds: bool)
    ensures RereadAll(Fill(elems, holds)) == Fill(RereadAll(elems), holds)
    decreases elems, 1
  {
    if elems != [] {
      RereadOneFilled(elems[0], holds);
      RereadAllFilled(elems[1..], holds);
      FillAppend(RereadOne(elems[0]), RereadAll(elems[1..]), holds);
      assert Fill(elems, holds)[1..] == Fill(elems[1..], holds);
    }
  }

  lemma {:induction false} RereadFilled(elems: seq<Mark>, holds: bool)
    ensures Reread(Fill(elems, holds)) == Fill(Reread(elems), holds)
    decreases elems, 2
  {
    FillKeepsShape(elems, holds);
    if Wraps(elems) && elems[0].List? {
      RereadFilled(elems[0].elems, holds);
    } else {
      RereadAllFilled(elems, holds);
    }
  }

  // ----- values of filled lists -----

  lemma {:induction false} FillOneMeans(m: Mark, holds: bool)
    requires ShapedOperand(m)
    ensures Worth(ReadingOne(FillOne(m, holds)), ENV, Decide) == Truth(holds)
    ensures Decided([FillOne(m, holds)]) == Truth(holds)
    decreases m
  {
    if m.List? { FillMeans(m.elems, holds); }
    AloneMeans(FillOne(m, holds), ENV, Decide);
  }

  lemma {:induction false} FillMeans(elems: seq<Mark>, holds: bool)
    requires Shaped(elems)
    ensures FirstDecided(Fill(elems, holds)) == Truth(holds)
    ensures OthersDecided(Fill(elems, holds)) == Truth(holds && Word(Or) in elems)
    ensures Decided(Fill(elems, holds)) == Truth(holds)
    decreases elems
  {
    var one := [FillOne(elems[0], holds)];
    FillOneMeans(elems[0], holds);
    AloneWorth(one[0], ENV, Decide);
    MeaningParts(Fill(elems, holds), ENV, Decide);
    if |elems| == 1 {
      assert Fill(elems[1..], holds) == [] && Fill(elems, holds) == one;
    } else {
      var rest := Fill(elems[2..], holds);
      FillTail(elems, holds);
      FillMeans(elems[2..], holds);
      assert Word(Or) in elems <==> elems[1].word.Or? || Word(Or) in elems[2..] by {
        assert elems == [elems[0]] + [elems[1]] + elems[2..];
      }
      if elems[1].word.And? { AndJoins(one, rest, ENV, Decide); } else { OrJoins(one, rest, ENV, Decide); }
    }
  }

  /** What stands in front of an `or` is a conjunction of its own, whatever follows. */
  lemma {:induction false} FirstUpToOr(a: seq<Mark>, b: seq<Mark>)
    requires Word(Or) in a
    ensures FirstDecided(a + b) == FirstDecided(a)
    decreases |a|
  {
    assert (a + b)[1..] == a[1..] + b;
    HeadWorth(a, ENV, Decide);
    HeadWorth(a + b, ENV, Decide);
    if a[0] != Word(Or) {
      assert a == [a[0]] + a[1..];
      FirstUpToOr(a[1..], b);
    }
  }

  lemma {:induction false} AndTrue(a: seq<Mark>, b: seq<Mark>)
    requires Word(Or) !in a && Decided(a) == Truth(true)
    ensures Decided(a + [Word(And)] + b) == Decided(b)
  {
    AndJoins(a, b, ENV, Decide);
    MeaningParts(a + [Word(And)] + b, ENV, Decide);
    MeaningParts(b, ENV, Decide);
  }

  lemma {:induction false} OrFalse(a: seq<Mark>, b: seq<Mark>)
    ensures Decided(a) == Truth(false) ==> Decided(a + [Word(Or)] + b) == Decided(b)
    ensures Decided(b) == Truth(false) ==> Decided(a + [Word(Or)] + b) == Decided(a)
  {
    OrMeans(a, b, ENV, Decide);
  }

  /** A conjunction that holds beside a list decides nothing. */
  lemma {:induction false} TrueAnd(a: seq<Mark>, b: seq<Mark>)
    requires Word(Or) !in a && FirstDecided(b) == Truth(true) && OthersDecided(b) == Truth(false)
    ensures Decided(a + [Word(And)] + b) == Decided(a)
  {
    AndJoins(a, b, ENV, Decide);
    MeaningParts(a + [Word(And)] + b, ENV, Decide);
  }

  // ----- comparisons all given -----

  predicate AllGiven(elems: seq<Mark>)
    decreases elems
  {
    elems != [] ==> GivenOne(elems[0]) && AllGiven(elems[1..])
  }

  predicate GivenOne(m: Mark)
    decreases m
  {
    match m
    case Item(_, _, _) => exists b :: m == Given(b)
    case Word(_) => true
    case List(elems) => AllGiven(elems)
  }

  lemma {:induction false} FillIsGiven(elems: seq<Mark>, holds: bool)
    ensures AllGiven(Fill(elems, holds))
    decreases elems
  {
    if elems != [] {
      FillOneIsGiven(elems[0], holds);
      FillIsGiven(elems[1..], holds);
      assert Fill(elems, holds)[1..] == Fill(elems[1..], holds);
    }
  }

  lemma {:induction false} FillOneIsGiven(m: Mark, holds: bool)
    ensures GivenOne(FillOne(m, holds))
    decreases m
  {
    if m.List? { FillIsGiven(m.elems, holds); }
  }

  lemma {:induction false} GivenAppend(a: seq<Mark>, b: seq<Mark>)
    requires AllGiven(a) && AllGiven(b)
    ensures AllGiven(a + b)
    decreases |a|
  {
    if a == [] {
      assert a + b == b;
    } else {
      GivenAppend(a[1..], b);
      assert (a + b)[1..] == a[1..] + b;
    }
  }

  /** Then no error is raised. */
  lemma {:induction false} GivenMeans(elems: seq<Mark>)
    requires AllGiven(elems)
    ensures FirstDecided(elems).Truth? && OthersDecided(elems).Truth? && Decided(elems).Truth?
    decreases elems
  {
    MeaningParts(elems, ENV, Decide);
    if elems == [] {
      EmptyMeans(ENV, Decide);
    } else {
      GivenMeans(elems[1..]);
      HeadWorth(elems, ENV, Decide);
      if !elems[0].Word? { GivenOneMeans(elems[0]); }
    }
  }

  lemma {:induction false} GivenOneMeans(m: Mark)
    requires GivenOne(m) && !m.Word?
    ensures Worth(ReadingOne(m), ENV, Decide).Truth?
    decreases m
  {
    if m.List? { GivenMeans(m.elems); }
  }

  // ----- a marker of the same shape that printing spoils -----

  ghost predicate Spoils(elems: seq<Mark>, w: seq<Mark>) {
    SameShape(elems, w) && Shaped(w) && Decided(Reread(w)) != Decided(w)
  }

  ghost predicate SpoilsIn(elems: seq<Mark>, w: seq<Mark>) {
    SameShape(elems, w) && Shaped(w) && Decided(RereadAll(w)) != Decided(w)
  }

  /** The operands up to the first `or` hold, the others do not. */
  function FillFirst(elems: seq<Mark>): seq<Mark>
    requires Shaped(elems)
    decreases |elems|
  {
    [FillOne(elems[0], true)] +
      if |elems| == 1 then []
      else [elems[1]] + if elems[1].word.And? then FillFirst(elems[2..]) else Fill(elems[2..], false)
  }

  lemma {:induction false} FillFirstMeans(elems: seq<Mark>)
    requires Shaped(elems)
    ensures SameShape(elems, FillFirst(elems)) && Shaped(FillFirst(elems))
    ensures FirstDecided(FillFirst(elems)) == Truth(true) && OthersDecided(FillFirst(elems)) == Truth(false)
    decreases |elems|
  {
    var one := [FillOne(elems[0], true)];
    FillOneMeans(elems[0], true);
    FillOneIsShaped(elems[0], true);
    FillOneKeepsShape(elems[0], true);
    AloneWorth(one[0], ENV, Decide);
    if |elems| == 1 {
      assert FillFirst(elems) == one;
    } else {
      var rest := elems[2..];
      var more := if elems[1].word.And? then FillFirst(rest) else Fill(rest, false);
      if elems[1].word.And? {
        FillFirstMeans(rest);
        AndJoins(one, more, ENV, Decide);
      } else {
        FillMeans(rest, false);
        FillKeepsShape(rest, false);
        FillIsShaped(rest, false);
        OrJoins(one, more, ENV, Decide);
      }
      assert FillFirst(elems) == one + [Word(elems[1].word)] + more;
      JoinShaped(elems, one[0], more);
    }
  }

  /** A first operand and a tail of the right shapes make a list of the right shape. */
  lemma {:induction false} JoinShaped(elems: seq<Mark>, n: Mark, more: seq<Mark>)
    requires Shaped(elems) && |elems| > 1 && SameShapeOne(elems[0], n) && SameShape(elems[2..], more)
    requires ShapedOperand(n) && Shaped(more)
    ensures SameShape(elems, [n] + [Word(elems[1].word)] + more) && Shaped([n] + [Word(elems[1].word)] + more)
  {
    var word := [Word(elems[1].word)];
    ShapedJoin([n], elems[1].word, more);
    assert elems == [elems[0]] + word + elems[2..];
    ShapeAppend([elems[0]], [n], word, word);
    ShapeAppend([elems[0]] + word, [n] + word, elems[2..], more);
  }

  lemma {:induction false} Spoil(elems: seq<Mark>) returns (w: seq<Mark>)
    requires Shaped(elems) && !Harmless(elems)
    ensures Spoils(elems, w)
    decreases elems, 2
  {
    if Wraps(elems) && elems[0].List? {
      var inner := Spoil(elems[0].elems);
      w := [List(inner)];
      AloneMeans(w[0], ENV, Decide);
      assert SameShape(elems[1..], w[1..]);
    } else {
      w := SpoilIn(elems);
      ShapeWraps(elems, w);
    }
  }

  lemma {:induction false} SpoilOne(m: Mark) returns (n: Mark)
    requires ShapedOperand(m) && !HarmlessAt(m)
    ensures SameShapeOne(m, n) && ShapedOperand(n) && Decided(RereadOne(n)) != Decided([n])
    decreases m, 3
  {
    var inner := Spoil(m.elems);
    n := List(inner);
    AloneMeans(n, ENV, Decide);
    if !Wraps(inner) { AloneMeans(List(RereadAll(inner)), ENV, Decide); }
  }

  lemma {:induction false} SpoilIn(elems: seq<Mark>) returns (w: seq<Mark>)
    requires Shaped(elems) && !HarmlessIn(elems, false)
    ensures SpoilsIn(elems, w)
    decreases elems, 1
  {
    if |elems| == 1 {
      var n := SpoilOne(elems[0]);
      w := [n];
      RereadLast(w);
      assert SameShape(elems[1..], w[1..]);
    } else if elems[1].word.And? && OpensOr(elems[0]) {
      w := SpoilBefore(elems);
    } else if !HarmlessIn(elems[2..], false) {
      var more := SpoilIn(elems[2..]);
      w := SpoilFurther(elems, more);
    } else if elems[1].word.And? && OpensOr(elems[2]) {
      w := SpoilAfter(elems);
    } else {
      HarmlessRest(elems);
      var n := SpoilOne(elems[0]);
      w := SpoilHead(elems, n);
    }
  }

  lemma {:induction false} HarmlessRest(elems: seq<Mark>)
    requires Shaped(elems) && |elems| > 1 && !HarmlessIn(elems, false) && HarmlessIn(elems[2..], false)
    requires elems[1].word.And? ==> !OpensOr(elems[0]) && !OpensOr(elems[2])
    ensures !HarmlessAt(elems[0])
  {
    var tail, rest := elems[1..], elems[2..];
    assert tail[0] == elems[1] && tail[1..] == rest && rest[0] == elems[2];
    assert Shaped(rest) && ShapedOperand(rest[0]);
    assert HarmlessIn(rest, elems[1].word.And?);
  }

  lemma {:induction false} RereadJoined(n: Mark, word: BoolOp, more: seq<Mark>)
    ensures RereadAll([n] + [Word(word)] + more) == RereadOne(n) + [Word(word)] + RereadAll(more)
  {
    var w := [n] + [Word(word)] + more;
    assert w[1].Word? && w[2..] == more;
    RereadTail(w);
  }

  /** What an operand filled in one way becomes. */
  lemma {:induction false} FilledOperand(m: Mark, holds: bool)
    requires ShapedOperand(m)
    ensures var n := FillOne(m, holds);
      && SameShapeOne(m, n) && ShapedOperand(n) && RereadOne(n) == Fill(RereadOne(m), holds)
      && (OpensOr(n) <==> OpensOr(m))
    ensures FirstDecided(RereadOne(FillOne(m, holds))) == Truth(holds) && Decided(RereadOne(FillOne(m, holds))) == Truth(holds)
    ensures OthersDecided(RereadOne(FillOne(m, holds))) == Truth(holds && OpensOr(m))
  {
    FillOneKeepsShape(m, holds);
    FillOneIsShaped(m, holds);
    RereadOneFilled(m, holds);
    RereadOneShaped(m);
    FillMeans(RereadOne(m), holds);
    ShapeOpensOr(m, FillOne(m, holds));
  }

  lemma {:induction false} FilledList(elems: seq<Mark>, holds: bool)
    requires Shaped(elems)
    ensures SameShape(elems, Fill(elems, holds)) && Shaped(Fill(elems, holds))
    ensures RereadAll(Fill(elems, holds)) == Fill(RereadAll(elems), holds)
    ensures Decided(RereadAll(Fill(elems, holds))) == Truth(holds)
  {
    FillKeepsShape(elems, holds);
    FillIsShaped(elems, holds);
    RereadAllFilled(elems, holds);
    RereadAllShaped(elems);
    FillMeans(RereadAll(elems), holds);
  }

  /** The first operand opens to an `or` before an `and`: it holds, and nothing else. */
  lemma {:induction false} SpoilBefore(elems: seq<Mark>) returns (w: seq<Mark>)
    requires Shaped(elems) && |elems| > 1 && elems[1].word.And? && OpensOr(elems[0])
    ensures SpoilsIn(elems, w)
  {
    var n, more := FillOne(elems[0], true), Fill(elems[2..], false);
    w := [n] + [Word(And)] + more;
    FilledOperand(elems[0], true);
    FilledList(elems[2..], false);
    FillMeans(elems[2..], false);
    FillOneMeans(elems[0], true);
    JoinShaped(elems, n, more);
    AndJoins([n], more, ENV, Decide);
    MeaningParts(w, ENV, Decide);
    SpoilBeforeReread(elems[0], elems[2..]);
    RereadJoined(n, And, more);
  }

  lemma {:induction false} SpoilBeforeReread(m: Mark, rest: seq<Mark>)
    requires ShapedOperand(m) && OpensOr(m)
    ensures Decided(RereadOne(FillOne(m, true)) + [Word(And)] + RereadAll(Fill(rest, false))) == Truth(true)
  {
    var one, more := RereadOne(FillOne(m, true)), RereadAll(Fill(rest, false));
    var tail := [Word(And)] + more;
    FilledOperand(m, true);
    Associative(one, [Word(And)], more);
    FirstUpToOr(one, tail);
    RereadAllFilled(rest, false);
    FillIsGiven(RereadAll(rest), false);
    FillIsGiven(RereadOne(m), true);
    assert tail[1..] == more && AllGiven(tail);
    GivenAppend(one, tail);
    GivenMeans(one + tail);
    MeaningParts(one + tail, ENV, Decide);
  }

  /** What spoils the rest spoils the list, with a first operand that decides nothing. */
  lemma {:induction false} SpoilFurther(elems: seq<Mark>, more: seq<Mark>) returns (w: seq<Mark>)
    requires Shaped(elems) && |elems| > 1 && SpoilsIn(elems[2..], more)
    requires elems[1].word.And? ==> !OpensOr(elems[0])
    ensures SpoilsIn(elems, w)
  {
    var word := elems[1].word;
    var n := FillOne(elems[0], word.And?);
    w := [n] + [Word(word)] + more;
    FilledOperand(elems[0], word.And?);
    FillOneMeans(elems[0], word.And?);
    JoinShaped(elems, n, more);
    RereadJoined(n, word, more);
    if word.And? {
      AndTrue([n], more);
      AndTrue(RereadOne(n), RereadAll(more));
    } else {
      OrFalse([n], more);
      OrFalse(RereadOne(n), RereadAll(more));
    }
  }

  /** The operand after an `and` opens to an `or`: it holds, and nothing else. */
  lemma {:induction false} SpoilAfter(elems: seq<Mark>) returns (w: seq<Mark>)
    requires Shaped(elems) && |elems| > 1 && elems[1].word.And? && !OpensOr(elems[0])
    requires OpensOr(elems[2]) && HarmlessIn(elems[2..], false)
    ensures SpoilsIn(elems, w)
  {
    var n, more := FillOne(elems[0], false), FillFirst(elems[2..]);
    w := [n] + [Word(And)] + more;
    FilledOperand(elems[0], false);
    FillOneMeans(elems[0], false);
    FillFirstMeans(elems[2..]);
    JoinShaped(elems, n, more);
    AndJoins([n], more, ENV, Decide);
    MeaningParts(w, ENV, Decide);
    RereadJoined(n, And, more);
    FillFirstReread(elems[2..]);
    AndJoins(RereadOne(n), RereadAll(more), ENV, Decide);
    MeaningParts(RereadAll(w), ENV, Decide);
  }

  lemma {:induction false} FillFirstReread(elems: seq<Mark>)
    requires Shaped(elems) && OpensOr(elems[0]) && HarmlessIn(elems, false)
    ensures FirstDecided(RereadAll(FillFirst(elems))) == Truth(true) && OthersDecided(RereadAll(FillFirst(elems))) == Truth(true)
  {
    var n := FillOne(elems[0], true);
    FilledOperand(elems[0], true);
    if |elems| == 1 {
      assert FillFirst(elems) == [n];
      RereadLast([n]);
    } else {
      var more := Fill(elems[2..], false);
      assert elems[1].word.Or?;
      assert FillFirst(elems) == [n] + [Word(Or)] + more;
      RereadJoined(n, Or, more);
      FilledList(elems[2..], false);
      OrJoins(RereadOne(n), RereadAll(more), ENV, Decide);
    }
  }

  /** A spoilt first operand spoils the list, if nothing else in it does harm. */
  lemma {:induction false} SpoilHead(elems: seq<Mark>, n: Mark) returns (w: seq<Mark>)
    requires Shaped(elems) && |elems| > 1 && HarmlessIn(elems[2..], false)
    requires elems[1].word.And? ==> !OpensOr(elems[0]) && !OpensOr(elems[2])
    requires SameShapeOne(elems[0], n) && ShapedOperand(n) && Decided(RereadOne(n)) != Decided([n])
    ensures SpoilsIn(elems, w)
  {
    var word, rest := elems[1].word, elems[2..];
    var more := if word.And? then FillFirst(rest) else Fill(rest, false);
    w := [n] + [Word(word)] + more;
    if word.And? {
      FillFirstMeans(rest);
      TrueAnd([n], more);
      ShapeHarmlessIn(rest, more, false);
      ShapeOpensOr(rest[0], more[0]);
      ShapeOpensOr(elems[0], n);
      RereadAllMeans(more, false, ENV, Decide);
      TrueAnd(RereadOne(n), RereadAll(more));
    } else {
      FilledList(rest, false);
      FillMeans(rest, false);
      OrFalse([n], more);
      OrFalse(RereadOne(n), RereadAll(more));
    }
    JoinShaped(elems, n, more);
    RereadJoined(n, word, more);
  }

  // ----- the theorem -----

  /** What is printed reads back with the same value, or error, in every environment. */
  ghost predicate PrintsRight(elems: seq<Mark>) {
    var p := ParseMarker(FormatMarker(List(elems)));
    p.Got? && forall env, compare :: Meaning(p.elems, env, compare) == Meaning(elems, env, compare)
  }

  /**
   Printing keeps the meaning of every marker of a shape, whatever its comparisons are, exactly if
   in that shape no opened operand with an `or` comes to stand beside an `and`.
   */
  lemma {:induction false} ShapePrintsRightIff(elems: seq<Mark>)
    requires Shaped(elems)
    ensures (forall other :: SameShape(elems, other) && Shaped(other) ==> PrintsRight(other)) <==> Harmless(elems)
  {
    if Harmless(elems) {
      forall other | SameShape(elems, other) && Shaped(other) ensures PrintsRight(other) {
        ShapeHarmless(elems, other);
        HarmlessPrintsRight(other);
      }
    } else {
      var w := Spoil(elems);
      SpoiltPrintsWrong(w);
    }
  }

  lemma {:induction false} SpoiltPrintsWrong(w: seq<Mark>)
    requires Shaped(w) && Decided(Reread(w)) != Decided(w)
    ensures !PrintsRight(w)
  {
    PrintedReadsBack(w);
    assert Meaning(Reread(w), ENV, Decide) != Meaning(w, ENV, Decide);
  }

  lemma {:induction false} HarmlessPrintsRight(elems: seq<Mark>)
    requires Shaped(elems) && Harmless(elems)
    ensures PrintsRight(elems)
  {
    PrintedReadsBack(elems);
    forall env, compare ensures Meaning(Reread(elems), env, compare) == Meaning(elems, env, compare) {
      RereadMeans(elems, env, compare);
    }
  }
}
