/** What comparisons, `and`, `or` and parentheses contribute to the value of a marker. */
module MarkerMeanings {
  import opened Common
  import opened Markers

  /**
   A comparison puts the value of its variable on the side where the variable stands, and fails
   where the environment has none.
   */
  lemma {:induction false} ComparisonMeans(name: string, op: string, other: Node, text: string, env: Environment, compare: Comparison)
    ensures Meaning([Item(Variable(name), op, other)], env, compare) ==
      if name in env then compare(env[name], op, other.value) else Raised(UndefinedEnvironmentName(name))
    ensures Meaning([Item(Value(text), op, Variable(name))], env, compare) ==
      if name in env then compare(text, op, env[name]) else Raised(UndefinedEnvironmentName(name))
  {
    AloneMeans(Item(Variable(name), op, other), env, compare);
    AloneMeans(Item(Value(text), op, Variable(name)), env, compare);
  }

  /** Parentheses are worth what is inside them. */
  lemma {:induction false} ParenthesesMean(elems: seq<Mark>, env: Environment, compare: Comparison)
    ensures Meaning([List(elems)], env, compare) == Meaning(elems, env, compare)
  {
    AloneMeans(List(elems), env, compare);
  }

  lemma {:induction false} OrParts(left: seq<Mark>, right: seq<Mark>, env: Environment, compare: Comparison)
    ensures var both := left + ([Word(Or)] + right);
      && First(both, env, compare) == First(left, env, compare)
      && Others(both, env, compare) == Either(Others(left, env, compare), Meaning(right, env, compare))
    decreases |left|
  {
    var tail := [Word(Or)] + right;
    if left == [] {
      assert left + tail == tail && tail[1..] == right;
      EmptyMeans(env, compare);
      HeadWorth(tail, env, compare);
      MeaningParts(right, env, compare);
    } else {
      assert (left + tail)[1..] == left[1..] + tail;
      OrParts(left[1..], right, env, compare);
      HeadWorth(left, env, compare);
      HeadWorth(left + tail, env, compare);
      if left[0] == Word(Or) {
        EitherAssociates(First(left[1..], env, compare), Others(left[1..], env, compare), Meaning(right, env, compare));
      }
    }
  }

  /** An `or` at the top level divides a marker in two, whatever stands on its sides. */
  lemma {:induction false} OrMeans(left: seq<Mark>, right: seq<Mark>, env: Environment, compare: Comparison)
    ensures Meaning(left + ([Word(Or)] + right), env, compare) ==
      Either(Meaning(left, env, compare), Meaning(right, env, compare))
  {
    OrParts(left, right, env, compare);
    MeaningParts(left, env, compare);
    MeaningParts(left + ([Word(Or)] + right), env, compare);
    EitherAssociates(First(left, env, compare), Others(left, env, compare), Meaning(right, env, compare));
  }

  lemma {:induction false} WithoutOr(elems: seq<Mark>, env: Environment, compare: Comparison)
    requires Word(Or) !in elems
    ensures Others(elems, env, compare) == Truth(false) && Meaning(elems, env, compare) == First(elems, env, compare)
    decreases |elems|
  {
    MeaningParts(elems, env, compare);
    if elems == [] {
      EmptyMeans(env, compare);
    } else {
      WithoutOr(elems[1..], env, compare);
      HeadWorth(elems, env, compare);
    }
  }

  lemma {:induction false} AndParts(left: seq<Mark>, right: seq<Mark>, env: Environment, compare: Comparison)
    requires Word(Or) !in left
    ensures First(left + ([Word(And)] + right), env, compare) == Both(First(left, env, compare), First(right, env, compare))
    decreases |left|
  {
    var tail := [Word(And)] + right;
    if left == [] {
      assert left + tail == tail && tail[1..] == right;
      EmptyMeans(env, compare);
      HeadWorth(tail, env, compare);
    } else {
      assert (left + tail)[1..] == left[1..] + tail;
      AndParts(left[1..], right, env, compare);
      HeadWorth(left, env, compare);
      HeadWorth(left + tail, env, compare);
    }
  }

  /** An `and` without an `or` beside it at the top level needs both sides. */
  lemma {:induction false} AndMeans(left: seq<Mark>, right: seq<Mark>, env: Environment, compare: Comparison)
    requires Word(Or) !in left && Word(Or) !in right
    ensures Meaning(left + ([Word(And)] + right), env, compare) ==
      Both(Meaning(left, env, compare), Meaning(right, env, compare))
  {
    AndParts(left, right, env, compare);
    WithoutOr(left, env, compare);
    WithoutOr(right, env, compare);
    WithoutOr(left + ([Word(And)] + right), env, compare);
  }

  /** From text to value: an old name of a variable reads its modern entry. */
  lemma {:induction false} TextMeans(name: string, op: string, text: string, env: Environment, compare: Comparison)
    requires IsName(name) && op in OPERATORS
    ensures var modern := if name in ALIASES then ALIASES[name] else name;
      var left, right := ParseMarker([Name(name), Compare(op), Quoted(text)]), ParseMarker([Quoted(text), Compare(op), Name(name)]);
      && left.Got? && right.Got?
      && (modern in env ==> Meaning(left.elems, env, compare) == compare(env[modern], op, text))
      && (modern in env ==> Meaning(right.elems, env, compare) == compare(text, op, env[modern]))
      && (modern !in env ==> Meaning(left.elems, env, compare) == Raised(UndefinedEnvironmentName(modern)))
      && (modern !in env ==> Meaning(right.elems, env, compare) == Raised(UndefinedEnvironmentName(modern)))
  {
    ComparisonReads(Name(name), op, Quoted(text));
    ComparisonReads(Quoted(text), op, Name(name));
    ComparisonMeans(Alias(name), op, Value(text), text, env, compare);
  }

  lemma {:induction false} ComparisonReads(a: Token, op: string, b: Token)
    requires IsOperand(a) && IsOperand(b) && op in OPERATORS
    ensures ParseMarker([a, Compare(op), b]) == Got([Item(Operand(a), op, Operand(b))], [])
  {
    var ts := [a, Compare(op), b];
    var one := [Item(Operand(a), op, Operand(b))];
    assert ts[3..] == [];
    assert ParseAtom(ts) == Got(one, []) && ParseMore([]) == Got([], []);
    assert ParseExpr(ts) == Got(one + [], []);
    assert one + [] == one;
  }
}
