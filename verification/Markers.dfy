/**
 Environment markers: the grammar that reads them, the printer that drops parentheses, and
 the evaluator that collects operands in groups.  Text is a sequence of tokens; how two
 values compare is a parameter.
 */
module Markers {
  import opened Common

  datatype BoolOp = And | Or

  datatype Node = Variable(value: string) | Value(value: string)

  /** The nested lists a marker is made of: comparisons, lists in parentheses, `and`/`or`. */
  datatype Mark = Item(lhs: Node, op: string, rhs: Node) | List(elems: seq<Mark>) | Word(word: BoolOp)

  datatype Token = Name(text: string) | Quoted(text: string) | Compare(op: string) | Bool(word: BoolOp) | Open | Close

  const ALIASES: map<string, string> := map[
    "os.name" := "os_name",
    "sys.platform" := "sys_platform",
    "platform.version" := "platform_version",
    "platform.machine" := "platform_machine",
    "platform.python_implementation" := "platform_python_implementation",
    "python_implementation" := "platform_python_implementation"
  ]

  const PLAIN_NAMES: set<string> := {
    "implementation_version", "platform_python_implementation", "implementation_name",
    "python_full_version", "platform_release", "platform_version", "platform_machine",
    "platform_system", "python_version", "sys_platform", "os_name", "extra"
  }

  const OPERATORS: set<string> := {"===", "==", ">=", "<=", "!=", "~=", ">", "<", "not in", "in"}

  predicate IsName(name: string) {
    name in PLAIN_NAMES || name in ALIASES
  }

  function Alias(name: string): string {
    if name in ALIASES then ALIASES[name] else name
  }

  /** A node as the grammar makes it: variables carry their modern names. */
  predicate CanonicalNode(n: Node) {
    n.Variable? ==> IsName(n.value) && n.value !in ALIASES
  }

  /** The old names have a dot where no modern name has one, but for the one that is shorter. */
  predicate LooksModern(name: string) {
    |name| >= 7 && name[2] != '.' && |name| != 21 && name[3] != '.' && (|name| > 8 ==> name[8] != '.')
  }

  lemma {:induction false} ModernIsNoAlias(name: string)
    requires LooksModern(name)
    ensures name !in ALIASES
  {
    assert "os.name"[2] == '.' && "sys.platform"[3] == '.' && |"python_implementation"| == 21;
    assert "platform.version"[8] == '.' && "platform.machine"[8] == '.' && "platform.python_implementation"[8] == '.';
  }

  lemma {:induction false} AliasIsCanonical(name: string)
    requires IsName(name)
    ensures CanonicalNode(Variable(Alias(name)))
  {
    if name in ALIASES {
      assert LooksModern("os_name") && LooksModern("sys_platform");
      assert LooksModern("platform_version") && LooksModern("platform_machine");
      assert LooksModern("platform_python_implementation");
      ModernIsNoAlias(ALIASES[name]);
    }
  }

  // ----- the grammar -----

  datatype Parsed = Failed | Got(elems: seq<Mark>, rest: seq<Token>)

  predicate IsOperand(t: Token) {
    t.Quoted? || (t.Name? && IsName(t.text))
  }

  function Operand(t: Token): Node
    requires IsOperand(t)
  {
    if t.Name? then Variable(Alias(t.text)) else Value(t.text)
  }

  /** A comparison, or an expression in parentheses, which becomes a nested list. */
  function ParseAtom(ts: seq<Token>): (p: Parsed)
    ensures p.Got? ==> |p.rest| < |ts|
    decreases |ts|, 0
  {
    if |ts| >= 3 && IsOperand(ts[0]) && ts[1].Compare? && ts[1].op in OPERATORS && IsOperand(ts[2]) then
      Got([Item(Operand(ts[0]), ts[1].op, Operand(ts[2]))], ts[3..])
    else if |ts| >= 1 && ts[0].Open? then
      var inner := ParseExpr(ts[1..]);
      if inner.Got? && |inner.rest| >= 1 && inner.rest[0].Close? then Got([List(inner.elems)], inner.rest[1..])
      else Failed
    else Failed
  }

  function ParseExpr(ts: seq<Token>): (p: Parsed)
    ensures p.Got? ==> |p.rest| < |ts|
    decreases |ts|, 1
  {
    var atom := ParseAtom(ts);
    if atom.Failed? then Failed
    else
      var more := ParseMore(atom.rest);
      Got(atom.elems + more.elems, more.rest)
  }

  /** As many `and`/`or` followed by an expression as there are; their results are not grouped. */
  function ParseMore(ts: seq<Token>): (p: Parsed)
    ensures p.Got? && |p.rest| <= |ts|
    decreases |ts|, 0
  {
    if |ts| >= 1 && ts[0].Bool? then
      var next := ParseExpr(ts[1..]);
      if next.Failed? then Got([], ts)
      else
        var more := ParseMore(next.rest);
        Got([Word(ts[0].word)] + next.elems + more.elems, more.rest)
    else Got([], ts)
  }

  /** The whole text has to be used up. */
  function ParseMarker(ts: seq<Token>): Parsed {
    var p := ParseExpr(ts);
    if p.Got? && p.rest == [] then p else Failed
  }

  // ----- the lists the grammar makes -----

  predicate ShapedOperand(m: Mark)
    decreases m, 0
  {
    match m
    case Item(lhs, op, rhs) => CanonicalNode(lhs) && CanonicalNode(rhs) && op in OPERATORS
    case List(elems) => Shaped(elems)
    case Word(_) => false
  }

  /** Operands separated by `and`/`or`. */
  predicate Shaped(elems: seq<Mark>)
    decreases elems, 1
  {
    |elems| >= 1 && ShapedOperand(elems[0]) &&
    (|elems| > 1 ==> |elems| > 2 && elems[1].Word? && Shaped(elems[2..]))
  }

  lemma {:induction false} ShapedJoin(a: seq<Mark>, w: BoolOp, b: seq<Mark>)
    requires Shaped(a) && Shaped(b)
    ensures Shaped(a + [Word(w)] + b)
    decreases |a|
  {
    var all := a + [Word(w)] + b;
    assert all[0] == a[0];
    if |a| == 1 {
      assert all[2..] == b;
    } else {
      ShapedJoin(a[2..], w, b);
      assert all[2..] == a[2..] + [Word(w)] + b;
    }
  }

  lemma {:induction false} AtomShaped(ts: seq<Token>)
    ensures ParseAtom(ts).Got? ==> |ParseAtom(ts).elems| == 1 && ShapedOperand(ParseAtom(ts).elems[0])
    decreases |ts|, 0
  {
    if |ts| >= 3 && IsOperand(ts[0]) && ts[1].Compare? && ts[1].op in OPERATORS && IsOperand(ts[2]) {
      if ts[0].Name? { AliasIsCanonical(ts[0].text); }
      if ts[2].Name? { AliasIsCanonical(ts[2].text); }
    } else if |ts| >= 1 && ts[0].Open? {
      ExprShaped(ts[1..]);
    }
  }

  lemma {:induction false} ExprShaped(ts: seq<Token>)
    ensures ParseExpr(ts).Got? ==> Shaped(ParseExpr(ts).elems)
    decreases |ts|, 1
  {
    AtomShaped(ts);
    var atom := ParseAtom(ts);
    if atom.Got? {
      MoreShaped(atom.rest, atom.elems);
    }
  }

  lemma {:induction false} MoreShaped(ts: seq<Token>, before: seq<Mark>)
    requires Shaped(before)
    ensures Shaped(before + ParseMore(ts).elems)
    decreases |ts|, 0
  {
    var p := ParseMore(ts);
    if |ts| >= 1 && ts[0].Bool? && ParseExpr(ts[1..]).Got? {
      var next := ParseExpr(ts[1..]);
      ExprShaped(ts[1..]);
      ShapedJoin(before, ts[0].word, next.elems);
      var longer := before + [Word(ts[0].word)] + next.elems;
      MoreShaped(next.rest, longer);
      Associative(before, [Word(ts[0].word)] + next.elems, ParseMore(next.rest).elems);
      Associative(before, [Word(ts[0].word)], next.elems);
    } else {
      assert before + p.elems == before;
    }
  }

  /** Whatever the grammar accepts is a list of operands separated by `and`/`or`. */
  lemma {:induction false} ParsedIsShaped(ts: seq<Token>)
    ensures ParseMarker(ts).Got? ==> Shaped(ParseMarker(ts).elems)
  {
    ExprShaped(ts);
  }

  // ----- the printer -----

  function Serialize(n: Node): Token {
    if n.Variable? then Name(n.value) else Quoted(n.value)
  }

  function SerializeItem(m: Mark): seq<Token>
    requires m.Item?
  {
    [Serialize(m.lhs), Compare(m.op), Serialize(m.rhs)]
  }

  /** A list holding nothing but one list or comparison. */
  predicate Wraps(elems: seq<Mark>) {
    |elems| == 1 && !elems[0].Word?
  }

  /** A list that only wraps another item is skipped, and its content is then printed as if first. */
  function FormatMarker(m: Mark, first: bool := true): seq<Token>
    decreases m, 1
  {
    match m
    case Item(_, _, _) => SerializeItem(m)
    case Word(word) => [Bool(word)]
    case List(elems) =>
      if Wraps(elems) then FormatMarker(elems[0])
      else if first then FormatAll(elems)
      else [Open] + FormatAll(elems) + [Close]
  }

  function FormatAll(elems: seq<Mark>): seq<Token>
    decreases elems, 0
  {
    if elems == [] then [] else FormatMarker(elems[0], false) + FormatAll(elems[1..])
  }

  // ----- what is read back -----

  /** Every nested list in its own parentheses. */
  function Spell(elems: seq<Mark>): seq<Token>
    decreases elems, 0
  {
    if elems == [] then [] else SpellOne(elems[0]) + Spell(elems[1..])
  }

  function SpellOne(m: Mark): seq<Token>
    decreases m, 1
  {
    match m
    case Item(_, _, _) => SerializeItem(m)
    case Word(word) => [Bool(word)]
    case List(elems) => [Open] + Spell(elems) + [Close]
  }

  lemma {:induction false} SpellOneParses(m: Mark, rest: seq<Token>)
    requires ShapedOperand(m)
    ensures ParseAtom(SpellOne(m) + rest) == Got([m], rest)
    decreases m, 0
  {
    var ts := SpellOne(m) + rest;
    match m
    case Item(lhs, op, rhs) =>
      assert ts[3..] == rest;
    case List(elems) =>
      assert ts[0] == Open && ts[1..] == Spell(elems) + ([Close] + rest);
      SpellParses(elems, [Close] + rest);
      assert ([Close] + rest)[1..] == rest;
  }

  /** The grammar reads fully parenthesised text back as it was. */
  lemma {:induction false} SpellParses(elems: seq<Mark>, rest: seq<Token>)
    requires Shaped(elems) && (rest == [] || !rest[0].Bool?)
    ensures ParseExpr(Spell(elems) + rest) == Got(elems, rest)
    decreases elems, 1
  {
    var tail := Spell(elems[1..]) + rest;
    Associative(SpellOne(elems[0]), Spell(elems[1..]), rest);
    SpellOneParses(elems[0], tail);
    if |elems| == 1 {
      assert tail == rest && elems == [elems[0]] + [];
      assert ParseMore(rest) == Got([], rest);
    } else {
      assert elems[1..][0] == elems[1] && elems[1..][1..] == elems[2..];
      assert elems == [elems[0]] + elems[1..];
      SpellWord(elems[1..], rest);
      SpellParses(elems[2..], rest);
      MoreParses(elems, tail, rest);
    }
  }

  lemma {:induction false} SpellWord(elems: seq<Mark>, rest: seq<Token>)
    requires |elems| > 0 && elems[0].Word?
    ensures |Spell(elems) + rest| > 0 && (Spell(elems) + rest)[0] == Bool(elems[0].word)
    ensures (Spell(elems) + rest)[1..] == Spell(elems[1..]) + rest
  {
  }

  lemma {:induction false} MoreParses(elems: seq<Mark>, ts: seq<Token>, rest: seq<Token>)
    requires |elems| > 2 && elems[1].Word? && ts != [] && ts[0] == Bool(elems[1].word)
    requires ParseExpr(ts[1..]) == Got(elems[2..], rest) && (rest == [] || !rest[0].Bool?)
    ensures ParseMore(ts).elems == elems[1..] && ParseMore(ts).rest == rest
  {
    assert ParseMore(rest) == Got([], rest);
    assert [Word(elems[1].word)] + elems[2..] + [] == elems[1..];
  }

  /** The list that printing and reading gives: a wrapped list loses its parentheses. */
  function Reread(elems: seq<Mark>): seq<Mark>
    decreases elems, 2
  {
    if Wraps(elems) && elems[0].List? then Reread(elems[0].elems) else RereadAll(elems)
  }

  function RereadAll(elems: seq<Mark>): seq<Mark>
    decreases elems, 1
  {
    if elems == [] then [] else RereadOne(elems[0]) + RereadAll(elems[1..])
  }

  function RereadOne(m: Mark): seq<Mark>
    decreases m, 3
  {
    if !m.List? then [m]
    else if Wraps(m.elems) then Reread(m.elems)
    else [List(RereadAll(m.elems))]
  }

  lemma {:induction false} SpellAppend(a: seq<Mark>, b: seq<Mark>)
    ensures Spell(a + b) == Spell(a) + Spell(b)
    decreases |a|
  {
    if a == [] {
      assert a + b == b;
    } else {
      SpellAppend(a[1..], b);
      assert (a + b)[1..] == a[1..] + b;
    }
  }

  lemma {:induction false} FormatSpells(m: Mark)
    ensures FormatMarker(m, false) == Spell(RereadOne(m))
    ensures m.List? ==> FormatMarker(m) == Spell(Reread(m.elems))
    decreases m, 1
  {
    if m.List? {
      if Wraps(m.elems) {
        FormatSpells(m.elems[0]);
        if !m.elems[0].List? {
          assert m.elems == [m.elems[0]];
          FormatAllSpells(m.elems);
        }
      } else {
        FormatAllSpells(m.elems);
        assert Spell([List(RereadAll(m.elems))]) == SpellOne(List(RereadAll(m.elems)));
      }
    } else {
      assert Spell([m]) == SpellOne(m);
    }
  }

  lemma {:induction false} FormatAllSpells(elems: seq<Mark>)
    ensures FormatAll(elems) == Spell(RereadAll(elems))
    decreases elems, 0
  {
    if elems != [] {
      FormatSpells(elems[0]);
      FormatAllSpells(elems[1..]);
      SpellAppend(RereadOne(elems[0]), RereadAll(elems[1..]));
    }
  }

  lemma {:induction false} RereadOneShaped(m: Mark)
    requires ShapedOperand(m)
    ensures Shaped(RereadOne(m))
    ensures m.List? ==> Shaped(Reread(m.elems))
    decreases m, 1
  {
    if m.List? {
      RereadAllShaped(m.elems);
      if Wraps(m.elems) && m.elems[0].List? {
        RereadOneShaped(m.elems[0]);
      }
    }
  }

  lemma {:induction false} RereadAllShaped(elems: seq<Mark>)
    requires Shaped(elems)
    ensures Shaped(RereadAll(elems))
    decreases elems, 0
  {
    RereadOneShaped(elems[0]);
    var first := RereadOne(elems[0]);
    if |elems| == 1 {
      assert RereadAll(elems[1..]) == [];
      assert first + [] == first;
    } else {
      assert elems[1..][0] == elems[1] && elems[1..][1..] == elems[2..];
      RereadAllShaped(elems[2..]);
      ShapedJoin(first, elems[1].word, RereadAll(elems[2..]));
      assert RereadAll(elems[1..]) == [elems[1]] + RereadAll(elems[2..]);
      assert first + ([elems[1]] + RereadAll(elems[2..])) == first + [Word(elems[1].word)] + RereadAll(elems[2..]);
    }
  }

  /** What is printed always reads back, as the list with its wrapped lists opened. */
  lemma {:induction false} PrintedReadsBack(elems: seq<Mark>)
    requires Shaped(elems)
    ensures ParseMarker(FormatMarker(List(elems))) == Got(Reread(elems), [])
  {
    FormatSpells(List(elems));
    assert ShapedOperand(List(elems));
    RereadOneShaped(List(elems));
    SpellParses(Reread(elems), []);
    assert Spell(Reread(elems)) + [] == Spell(Reread(elems));
  }

  // ----- when the tree survives -----

  /** The tree without lists that only wrap one item. */
  function Unwrap(elems: seq<Mark>): seq<Mark>
    decreases elems, 2
  {
    if Wraps(elems) && elems[0].List? then Unwrap(elems[0].elems) else UnwrapAll(elems)
  }

  function UnwrapAll(elems: seq<Mark>): seq<Mark>
    decreases elems, 1
  {
    if elems == [] then [] else [UnwrapOne(elems[0])] + UnwrapAll(elems[1..])
  }

  function UnwrapOne(m: Mark): Mark
    decreases m, 3
  {
    if !m.List? then m
    else
      var inner := Unwrap(m.elems);
      if Wraps(inner) then inner[0] else List(inner)
  }

  /** Several items, perhaps in more than one pair of parentheses. */
  predicate Compound(elems: seq<Mark>)
    decreases elems
  {
    if Wraps(elems) && elems[0].List? then Compound(elems[0].elems) else !Wraps(elems)
  }

  /** Doubled parentheses around several items below the top level, as in `((a or b)) and c`. */
  predicate DoubledBelow(elems: seq<Mark>)
    decreases elems, 2
  {
    if Wraps(elems) && elems[0].List? then DoubledBelow(elems[0].elems) else DoubledIn(elems)
  }

  predicate DoubledIn(elems: seq<Mark>)
    decreases elems, 1
  {
    elems != [] && (DoubledAt(elems[0]) || DoubledIn(elems[1..]))
  }

  predicate DoubledAt(m: Mark)
    decreases m, 3
  {
    m.List? && if Wraps(m.elems) then Compound(m.elems) else DoubledIn(m.elems)
  }

  lemma {:induction false} UnwrapWraps(elems: seq<Mark>)
    requires Shaped(elems)
    ensures Wraps(Unwrap(elems)) <==> !Compound(elems)
    decreases elems
  {
    if Wraps(elems) && elems[0].List? {
      UnwrapWraps(elems[0].elems);
    } else if |elems| > 1 {
      assert elems[1..][1..] == elems[2..];
      assert |UnwrapAll(elems)| >= 2;
    }
  }

  predicate AllShaped(elems: seq<Mark>) {
    forall i :: 0 <= i < |elems| ==> elems[i].Word? || ShapedOperand(elems[i])
  }

  lemma {:induction false} ShapedItems(elems: seq<Mark>)
    requires Shaped(elems)
    ensures AllShaped(elems)
    decreases |elems|
  {
    if |elems| > 1 {
      ShapedItems(elems[2..]);
      assert forall i :: 2 <= i < |elems| ==> elems[i] == elems[2..][i - 2];
    }
  }

  lemma {:induction false} UnwrapAllLength(elems: seq<Mark>)
    ensures |UnwrapAll(elems)| == |elems|
    decreases |elems|
  {
    if elems != [] { UnwrapAllLength(elems[1..]); }
  }

  lemma {:induction false} CompoundReadsLong(elems: seq<Mark>)
    requires Shaped(elems) && Compound(elems)
    ensures |Reread(elems)| >= 2
    decreases elems
  {
    if Wraps(elems) && elems[0].List? {
      CompoundReadsLong(elems[0].elems);
    } else {
      assert |elems| > 1;
      ShapedItems(elems);
      RereadAllSurvives(elems);
    }
  }

  /** An item reads back as the one unwrapped item exactly when it holds no doubled parentheses. */
  lemma {:induction false} RereadOneSurvives(m: Mark)
    requires m.Word? || ShapedOperand(m)
    ensures RereadOne(m) == [UnwrapOne(m)] <==> !DoubledAt(m)
    ensures |RereadOne(m)| >= 1
    decreases m, 3
  {
    if m.List? {
      if Wraps(m.elems) {
        UnwrapWraps(m.elems);
        RereadSurvives(m.elems);
        if Compound(m.elems) {
          CompoundReadsLong(m.elems);
        } else {
          NotDoubledInside(m.elems);
          assert Unwrap(m.elems) == [Unwrap(m.elems)[0]];
        }
      } else {
        ShapedItems(m.elems);
        RereadAllSurvives(m.elems);
        UnwrapAllLength(m.elems);
      }
    }
  }

  lemma {:induction false} NotDoubledInside(elems: seq<Mark>)
    requires Shaped(elems) && !Compound(elems)
    ensures !DoubledBelow(elems)
    decreases elems
  {
    if Wraps(elems) && elems[0].List? {
      NotDoubledInside(elems[0].elems);
    } else {
      assert !DoubledAt(elems[0]);
      assert elems[1..] == [] && !DoubledIn(elems[1..]);
    }
  }

  lemma {:induction false} RereadAllSurvives(elems: seq<Mark>)
    requires AllShaped(elems)
    ensures RereadAll(elems) == UnwrapAll(elems) <==> !DoubledIn(elems)
    ensures |RereadAll(elems)| >= |elems|
    decreases elems, 1
  {
    if elems != [] {
      var rest := elems[1..];
      RereadOneSurvives(elems[0]);
      RereadAllSurvives(rest);
      UnwrapAllLength(rest);
      var one, more := RereadOne(elems[0]), RereadAll(rest);
      if RereadAll(elems) == UnwrapAll(elems) {
        assert |one| == 1;
        assert one == [(one + more)[0]] && more == (one + more)[1..];
        assert UnwrapAll(rest) == UnwrapAll(elems)[1..];
      }
    }
  }

  /** The tree that comes back is the tree that was printed, exactly without doubled parentheses. */
  lemma {:induction false} RereadSurvives(elems: seq<Mark>)
    requires Shaped(elems)
    ensures Reread(elems) == Unwrap(elems) <==> !DoubledBelow(elems)
    ensures |Reread(elems)| >= 1
    decreases elems, 2
  {
    if Wraps(elems) && elems[0].List? {
      RereadSurvives(elems[0].elems);
    } else {
      ShapedItems(elems);
      RereadAllSurvives(elems);
    }
  }

  // ----- evaluation -----

  datatype Error = UndefinedComparison | UndefinedEnvironmentName(name: string)

  datatype Verdict = Truth(holds: bool) | Raised(error: Error)

  type Environment = map<string, string>
  /** How a value compares with another, which may be undefined. */
  type Comparison = (string, string, string) -> Verdict

  /** A comparison looks up its left side if that is a variable, else its right side. */
  function EvalItem(m: Mark, env: Environment, compare: Comparison): Verdict
    requires m.Item?
  {
    var name := if m.lhs.Variable? then m.lhs.value else m.rhs.value;
    if name !in env then Raised(UndefinedEnvironmentName(name))
    else if m.lhs.Variable? then compare(env[name], m.op, m.rhs.value)
    else compare(m.lhs.value, m.op, env[name])
  }

  /** A marker as a disjunction of conjunctions. */
  datatype Form = Leaf(item: Mark) | All(parts: seq<Form>) | Any(parts: seq<Form>)

  /** The reading in which `and` binds tighter than `or`. */
  function Reading(elems: seq<Mark>): Form
    decreases elems, 1
  {
    Any(Conjunctions(elems))
  }

  function ReadingOne(m: Mark): Form
    requires !m.Word?
    decreases m, 0
  {
    if m.Item? then Leaf(m) else Reading(m.elems)
  }

  /** The parts between the `or`s, each the conjunction of its operands. */
  function Conjunctions(elems: seq<Mark>): (fs: seq<Form>)
    ensures fs != [] && forall i :: 0 <= i < |fs| ==> fs[i].All?
    decreases elems, 0
  {
    if elems == [] then [All([])]
    else
      var rest := Conjunctions(elems[1..]);
      if elems[0].Word? then (if elems[0].word.Or? then [All([])] + rest else rest)
      else [All([ReadingOne(elems[0])] + rest[0].parts)] + rest[1..]
  }

  function Both(a: Verdict, b: Verdict): Verdict {
    if a.Raised? then a else if b.Raised? then b else Truth(a.holds && b.holds)
  }

  function Either(a: Verdict, b: Verdict): Verdict {
    if a.Raised? then a else if b.Raised? then b else Truth(a.holds || b.holds)
  }

  /** The value of a form; every leaf is looked at, from the left, and the first error wins. */
  function Worth(f: Form, env: Environment, compare: Comparison): Verdict
    decreases f, 1
  {
    match f
    case Leaf(item) => if item.Item? then EvalItem(item, env, compare) else Truth(true)
    case All(parts) => WorthAll(parts, env, compare)
    case Any(parts) => WorthAny(parts, env, compare)
  }

  function WorthAll(parts: seq<Form>, env: Environment, compare: Comparison): Verdict
    decreases parts, 0
  {
    if parts == [] then Truth(true) else Both(Worth(parts[0], env, compare), WorthAll(parts[1..], env, compare))
  }

  function WorthAny(parts: seq<Form>, env: Environment, compare: Comparison): Verdict
    decreases parts, 0
  {
    if parts == [] then Truth(false) else Either(Worth(parts[0], env, compare), WorthAny(parts[1..], env, compare))
  }

  /** The value of a marker. */
  function Meaning(elems: seq<Mark>, env: Environment, compare: Comparison): Verdict {
    Worth(Reading(elems), env, compare)
  }

  // ----- the evaluator -----

  predicate AllTrue(group: seq<bool>) {
    forall i :: 0 <= i < |group| ==> group[i]
  }

  predicate SomeAllTrue(groups: seq<seq<bool>>) {
    exists i :: 0 <= i < |groups| && AllTrue(groups[i])
  }

  /** What the operands from some point on make of the groups so far. */
  function Continue(groups: seq<seq<bool>>, elems: seq<Mark>, env: Environment, compare: Comparison): Verdict
    requires groups != []
  {
    var fs := Conjunctions(elems);
    var last := |groups| - 1;
    Either(Truth(SomeAllTrue(groups[..last])),
           Either(Both(Truth(AllTrue(groups[last])), Worth(fs[0], env, compare)), WorthAny(fs[1..], env, compare)))
  }

  lemma {:induction false} GroupsGrow(groups: seq<seq<bool>>, value: bool)
    requires groups != []
    ensures AllTrue(groups[|groups| - 1] + [value]) <==> AllTrue(groups[|groups| - 1]) && value
    ensures SomeAllTrue(groups) <==> SomeAllTrue(groups[..|groups| - 1]) || AllTrue(groups[|groups| - 1])
  {
    var last := |groups| - 1;
    var g := groups[last];
    assert (g + [value])[|g|] == value;
    assert AllTrue(g + [value]) ==> forall i :: 0 <= i < |g| ==> (g + [value])[i] == g[i];
    if i :| 0 <= i < last && AllTrue(groups[..last][i]) {
      assert groups[i] == groups[..last][i];
    }
    if i :| 0 <= i < |groups| && AllTrue(groups[i]) && i < last {
      assert groups[i] == groups[..last][i];
    }
  }

  lemma {:induction false} ContinueStart(elems: seq<Mark>, env: Environment, compare: Comparison)
    ensures Continue([[]], elems, env, compare) == Meaning(elems, env, compare)
  {
    var fs := Conjunctions(elems);
    assert Meaning(elems, env, compare) == WorthAny(fs, env, compare);
    var groups: seq<seq<bool>> := [[]];
    assert groups[..0] == [];
  }

  /** What the head of a list adds to the value of its conjunctions. */
  lemma {:induction false} HeadWorth(elems: seq<Mark>, env: Environment, compare: Comparison)
    requires elems != []
    ensures var fs, rest := Conjunctions(elems), Conjunctions(elems[1..]);
      if !elems[0].Word? then
        && Worth(fs[0], env, compare) == Both(Worth(ReadingOne(elems[0]), env, compare), Worth(rest[0], env, compare))
        && fs[1..] == rest[1..]
      else if elems[0].word.Or? then
        && Worth(fs[0], env, compare) == Truth(true)
        && WorthAny(fs[1..], env, compare) == Either(Worth(rest[0], env, compare), WorthAny(rest[1..], env, compare))
      else fs == rest
  {
    var fs, rest := Conjunctions(elems), Conjunctions(elems[1..]);
    if !elems[0].Word? {
      var one := ReadingOne(elems[0]);
      assert ([one] + rest[0].parts)[1..] == rest[0].parts;
    } else if elems[0].word.Or? {
      assert fs[1..] == rest;
    }
  }

  lemma {:induction false} ContinueSteps(groups: seq<seq<bool>>, elems: seq<Mark>, env: Environment, compare: Comparison)
    requires groups != [] && elems != []
    ensures var last := |groups| - 1;
      if elems[0].Word? then
        Continue(groups, elems, env, compare)
        == Continue(if elems[0].word.Or? then groups + [[]] else groups, elems[1..], env, compare)
      else
        var v := Worth(ReadingOne(elems[0]), env, compare);
        Continue(groups, elems, env, compare)
        == if v.Raised? then v
           else Continue(groups[last := groups[last] + [v.holds]], elems[1..], env, compare)
  {
    var last := |groups| - 1;
    HeadWorth(elems, env, compare);
    if elems[0].Word? {
      if elems[0].word.Or? {
        var next := groups + [[]];
        GroupsGrow(groups, true);
        assert next[..|next| - 1] == groups && next[|next| - 1] == [];
      }
    } else {
      var v := Worth(ReadingOne(elems[0]), env, compare);
      if v.Truth? {
        var next := groups[last := groups[last] + [v.holds]];
        GroupsGrow(groups, v.holds);
        assert next[..last] == groups[..last];
      }
    }
  }

  /**
   Collects the operands between the `or`s in groups and asks whether some group is all true.
   The answer is the value of the reading in which `and` binds tighter than `or`, and an error
   is the first one met, since nothing is skipped.
   */
  method EvaluateMarkers(markers: seq<Mark>, env: Environment, compare: Comparison) returns (r: Verdict)
    ensures r == Meaning(markers, env, compare)
    decreases markers
  {
    var groups: seq<seq<bool>> := [[]];
    ContinueStart(markers, env, compare);
    for i := 0 to |markers|
      invariant groups != []
      invariant Continue(groups, markers[i..], env, compare) == Meaning(markers, env, compare)
    {
      var last := |groups| - 1;
      var marker := markers[i];
      ContinueSteps(groups, markers[i..], env, compare);
      assert markers[i..][1..] == markers[i + 1..];
      match marker
      case List(elems) =>
        var v := EvaluateMarkers(elems, env, compare);
        if v.Raised? { return v; }
        groups := groups[last := groups[last] + [v.holds]];
      case Item(_, _, _) =>
        var v := EvalItem(marker, env, compare);
        if v.Raised? { return v; }
        groups := groups[last := groups[last] + [v.holds]];
      case Word(word) =>
        if word == Or {
          groups := groups + [[]];
        }
    }
    return Truth(exists i :: 0 <= i < |groups| && AllTrue(groups[i]));
  }

  // ----- printing keeps the meaning -----

  lemma {:induction false} MeaningParts(elems: seq<Mark>, env: Environment, compare: Comparison)
    ensures var fs := Conjunctions(elems);
      Meaning(elems, env, compare) == Either(Worth(fs[0], env, compare), WorthAny(fs[1..], env, compare))
  {
    var fs := Conjunctions(elems);
    assert Meaning(elems, env, compare) == WorthAny(fs, env, compare);
  }

  lemma {:induction false} AloneWorth(m: Mark, env: Environment, compare: Comparison)
    requires !m.Word?
    ensures Worth(Conjunctions([m])[0], env, compare) == Worth(ReadingOne(m), env, compare)
    ensures WorthAny(Conjunctions([m])[1..], env, compare) == Truth(false)
  {
    HeadWorth([m], env, compare);
    var none: seq<Form> := [];
    assert Conjunctions([m][1..]) == [All(none)] && Conjunctions([m])[1..] == none;
    assert Worth(All(none), env, compare) == Truth(true);
  }

  lemma {:induction false} AloneMeans(m: Mark, env: Environment, compare: Comparison)
    requires !m.Word?
    ensures Meaning([m], env, compare) == Worth(ReadingOne(m), env, compare)
  {
    MeaningParts([m], env, compare);
    AloneWorth(m, env, compare);
  }

  lemma {:induction false} UnwrapOneMeans(m: Mark, env: Environment, compare: Comparison)
    ensures UnwrapOne(m).Word? <==> m.Word?
    ensures m.Word? ==> UnwrapOne(m) == m
    ensures !m.Word? ==> Worth(ReadingOne(UnwrapOne(m)), env, compare) == Worth(ReadingOne(m), env, compare)
    decreases m, 3
  {
    if m.List? {
      UnwrapMeans(m.elems, env, compare);
      var inner := Unwrap(m.elems);
      if Wraps(inner) {
        assert inner == [inner[0]];
        AloneMeans(inner[0], env, compare);
      }
    }
  }

  lemma {:induction false} UnwrapAllMeans(elems: seq<Mark>, env: Environment, compare: Comparison)
    ensures var fs, gs := Conjunctions(elems), Conjunctions(UnwrapAll(elems));
      && Worth(gs[0], env, compare) == Worth(fs[0], env, compare)
      && WorthAny(gs[1..], env, compare) == WorthAny(fs[1..], env, compare)
    decreases elems, 1
  {
    if elems != [] {
      UnwrapOneMeans(elems[0], env, compare);
      UnwrapAllMeans(elems[1..], env, compare);
      HeadWorth(elems, env, compare);
      HeadWorth(UnwrapAll(elems), env, compare);
      assert UnwrapAll(elems)[1..] == UnwrapAll(elems[1..]);
    }
  }

  lemma {:induction false} UnwrapMeans(elems: seq<Mark>, env: Environment, compare: Comparison)
    ensures Meaning(Unwrap(elems), env, compare) == Meaning(elems, env, compare)
    decreases elems, 2
  {
    if Wraps(elems) && elems[0].List? {
      UnwrapMeans(elems[0].elems, env, compare);
      assert elems == [elems[0]];
      AloneMeans(elems[0], env, compare);
    } else {
      UnwrapAllMeans(elems, env, compare);
      MeaningParts(elems, env, compare);
      MeaningParts(UnwrapAll(elems), env, compare);
    }
  }

  /**
   A printed marker always parses, and gives back the tree, up to lists that wrap one item,
   exactly when no several items are in doubled parentheses below the top level.
   */
  lemma {:induction false} TreeSurvivesIff(elems: seq<Mark>)
    requires Shaped(elems)
    ensures ParseMarker(FormatMarker(List(elems))).Got?
    ensures ParseMarker(FormatMarker(List(elems))).elems == Unwrap(elems) <==> !DoubledBelow(elems)
  {
    PrintedReadsBack(elems);
    RereadSurvives(elems);
  }

  // ----- when printing keeps the meaning -----

  /** Printing opens this operand, and what comes out has an `or`. */
  predicate OpensOr(m: Mark) {
    Word(Or) in RereadOne(m)
  }

  /** No operand that opens to an `or` stands beside an `and`, at any depth. */
  predicate Harmless(elems: seq<Mark>)
    decreases elems, 2
  {
    if Wraps(elems) && elems[0].List? then Harmless(elems[0].elems) else HarmlessIn(elems, false)
  }

  predicate HarmlessIn(elems: seq<Mark>, afterAnd: bool)
    decreases elems, 1
  {
    elems != [] ==>
      if elems[0].Word? then HarmlessIn(elems[1..], elems[0].word.And?)
      else
        && HarmlessAt(elems[0]) && HarmlessIn(elems[1..], false)
        && (OpensOr(elems[0]) ==> !afterAnd && !(|elems| > 1 && elems[1] == Word(And)))
  }

  predicate HarmlessAt(m: Mark)
    decreases m, 3
  {
    m.List? ==> Harmless(m.elems)
  }

  lemma EitherAssociates(a: Verdict, b: Verdict, c: Verdict)
    ensures Either(Either(a, b), c) == Either(a, Either(b, c))
    ensures Both(Both(a, b), c) == Both(a, Both(b, c))
  {
  }

  /** The value of a list's first conjunction. */
  function First(elems: seq<Mark>, env: Environment, compare: Comparison): Verdict {
    Worth(Conjunctions(elems)[0], env, compare)
  }

  /** The value of its other conjunctions together. */
  function Others(elems: seq<Mark>, env: Environment, compare: Comparison): Verdict {
    WorthAny(Conjunctions(elems)[1..], env, compare)
  }

  lemma {:induction false} EmptyMeans(env: Environment, compare: Comparison)
    ensures First([], env, compare) == Truth(true) && Others([], env, compare) == Truth(false)
  {
    var none: seq<Form> := [];
    assert Conjunctions([]) == [All(none)] && Conjunctions([])[1..] == none;
    assert Worth(All(none), env, compare) == Truth(true);
  }

  /** Operands without an `or` in between join the first conjunction of what follows. */
  lemma {:induction false} WithoutOr(a: seq<Mark>, b: seq<Mark>, env: Environment, compare: Comparison)
    requires Word(Or) !in a
    ensures First(a + b, env, compare) == Both(First(a, env, compare), First(b, env, compare))
    ensures Others(a + b, env, compare) == Others(b, env, compare) && Others(a, env, compare) == Truth(false)
    decreases |a|
  {
    if a == [] {
      EmptyMeans(env, compare);
      assert a + b == b;
    } else {
      assert (a + b)[1..] == a[1..] + b;
      WithoutOr(a[1..], b, env, compare);
      HeadWorth(a, env, compare);
      HeadWorth(a + b, env, compare);
      if !a[0].Word? {
        EitherAssociates(Worth(ReadingOne(a[0]), env, compare), First(a[1..], env, compare), First(b, env, compare));
      }
    }
  }

  lemma {:induction false} AndJoins(a: seq<Mark>, b: seq<Mark>, env: Environment, compare: Comparison)
    requires Word(Or) !in a
    ensures First(a + [Word(And)] + b, env, compare) == Both(Meaning(a, env, compare), First(b, env, compare))
    ensures Others(a + [Word(And)] + b, env, compare) == Others(b, env, compare)
  {
    var tail := [Word(And)] + b;
    Associative(a, [Word(And)], b);
    WithoutOr(a, tail, env, compare);
    MeaningParts(a, env, compare);
    assert tail[1..] == b;
    HeadWorth(tail, env, compare);
  }

  /** An `or` separates the conjunctions on its sides. */
  lemma {:induction false} OrJoins(a: seq<Mark>, b: seq<Mark>, env: Environment, compare: Comparison)
    ensures First(a + [Word(Or)] + b, env, compare) == First(a, env, compare)
    ensures Others(a + [Word(Or)] + b, env, compare) == Either(Others(a, env, compare), Meaning(b, env, compare))
    decreases |a|
  {
    var all := a + [Word(Or)] + b;
    HeadWorth(all, env, compare);
    if a == [] {
      EmptyMeans(env, compare);
      assert all[1..] == b;
      MeaningParts(b, env, compare);
    } else {
      assert all[1..] == a[1..] + [Word(Or)] + b;
      HeadWorth(a, env, compare);
      OrJoins(a[1..], b, env, compare);
      EitherAssociates(First(a[1..], env, compare), Others(a[1..], env, compare), Meaning(b, env, compare));
    }
  }

  lemma {:induction false} OrMeans(a: seq<Mark>, b: seq<Mark>, env: Environment, compare: Comparison)
    ensures Meaning(a + [Word(Or)] + b, env, compare) == Either(Meaning(a, env, compare), Meaning(b, env, compare))
  {
    OrJoins(a, b, env, compare);
    MeaningParts(a, env, compare);
    MeaningParts(a + [Word(Or)] + b, env, compare);
    EitherAssociates(First(a, env, compare), Others(a, env, compare), Meaning(b, env, compare));
  }

  lemma {:induction false} RereadOneMeans(m: Mark, env: Environment, compare: Comparison)
    requires ShapedOperand(m) && HarmlessAt(m)
    ensures Meaning(RereadOne(m), env, compare) == Worth(ReadingOne(m), env, compare)
    decreases m, 3
  {
    if m.Item? {
      AloneMeans(m, env, compare);
    } else {
      RereadMeans(m.elems, env, compare);
      if !Wraps(m.elems) { AloneMeans(List(RereadAll(m.elems)), env, compare); }
    }
  }

  lemma {:induction false} RereadMeans(elems: seq<Mark>, env: Environment, compare: Comparison)
    requires Shaped(elems) && Harmless(elems)
    ensures Meaning(Reread(elems), env, compare) == Meaning(elems, env, compare)
    decreases elems, 2
  {
    if Wraps(elems) && elems[0].List? {
      RereadMeans(elems[0].elems, env, compare);
      assert elems == [elems[0]];
      AloneMeans(elems[0], env, compare);
    } else {
      RereadAllMeans(elems, false, env, compare);
    }
  }

  /** The conjunctions stay as they are, or, after an operand that opens to an `or`, at least their disjunction. */
  ghost predicate SameValue(a: seq<Mark>, b: seq<Mark>, parts: bool, env: Environment, compare: Comparison) {
    && Meaning(a, env, compare) == Meaning(b, env, compare)
    && (parts ==> First(a, env, compare) == First(b, env, compare) && Others(a, env, compare) == Others(b, env, compare))
  }

  lemma {:induction false} HarmlessTail(elems: seq<Mark>, afterAnd: bool)
    requires Shaped(elems) && |elems| > 1 && HarmlessIn(elems, afterAnd)
    ensures HarmlessIn(elems[2..], elems[1].word.And?)
    ensures elems[1].word.And? ==> !OpensOr(elems[0]) && !OpensOr(elems[2])
  {
    var tail := elems[1..];
    assert tail[0] == elems[1] && tail[1..] == elems[2..];
    assert HarmlessIn(tail, false);
    assert Shaped(elems[2..]) && ShapedOperand(elems[2..][0]) && elems[2..][0] == elems[2];
  }

  lemma {:induction false} RereadTail(elems: seq<Mark>)
    requires |elems| > 1 && elems[1].Word?
    ensures elems == [elems[0]] + [elems[1]] + elems[2..]
    ensures RereadAll(elems) == RereadOne(elems[0]) + [elems[1]] + RereadAll(elems[2..])
  {
    assert elems[1..][0] == elems[1] && elems[1..][1..] == elems[2..];
    assert RereadAll(elems[1..]) == [elems[1]] + RereadAll(elems[2..]);
    Associative(RereadOne(elems[0]), [elems[1]], RereadAll(elems[2..]));
  }

  lemma {:induction false} RereadAllMeans(elems: seq<Mark>, afterAnd: bool, env: Environment, compare: Comparison)
    requires Shaped(elems) && HarmlessIn(elems, afterAnd)
    ensures SameValue(RereadAll(elems), elems, !OpensOr(elems[0]), env, compare)
    decreases elems, 1
  {
    RereadOneMeans(elems[0], env, compare);
    if |elems| == 1 {
      RereadLast(elems);
      SingleMeans(elems[0], RereadOne(elems[0]), env, compare);
    } else {
      HarmlessTail(elems, afterAnd);
      RereadAllMeans(elems[2..], elems[1].word.And?, env, compare);
      RereadTail(elems);
      JoinMeans(elems[0], elems[1].word, elems[2..], RereadAll(elems[2..]), !OpensOr(elems[2]), env, compare);
    }
  }

  lemma {:induction false} RereadLast(elems: seq<Mark>)
    requires |elems| == 1
    ensures elems == [elems[0]] && RereadAll(elems) == RereadOne(elems[0])
  {
    assert RereadAll(elems[1..]) == [] && RereadOne(elems[0]) + [] == RereadOne(elems[0]);
  }

  lemma {:induction false} JoinMeans(m: Mark, w: BoolOp, rest: seq<Mark>, more: seq<Mark>, parts: bool, env: Environment, compare: Comparison)
    requires !m.Word? && Meaning(RereadOne(m), env, compare) == Worth(ReadingOne(m), env, compare)
    requires SameValue(more, rest, parts, env, compare) && (w.And? ==> !OpensOr(m) && parts)
    ensures SameValue(RereadOne(m) + [Word(w)] + more, [m] + [Word(w)] + rest, !OpensOr(m), env, compare)
  {
    if w.And? {
      JoinByAnd(m, RereadOne(m), rest, more, env, compare);
    } else {
      JoinByOr(m, RereadOne(m), rest, more, env, compare);
    }
  }

  lemma {:induction false} SingleMeans(m: Mark, one: seq<Mark>, env: Environment, compare: Comparison)
    requires !m.Word? && Meaning(one, env, compare) == Worth(ReadingOne(m), env, compare)
    ensures SameValue(one, [m], Word(Or) !in one, env, compare)
  {
    AloneMeans(m, env, compare);
    AloneWorth(m, env, compare);
    MeaningParts(one, env, compare);
    if Word(Or) !in one { WithoutOr(one, [], env, compare); }
  }

  lemma {:induction false} JoinByAnd(m: Mark, one: seq<Mark>, rest: seq<Mark>, more: seq<Mark>, env: Environment, compare: Comparison)
    requires !m.Word? && Meaning(one, env, compare) == Worth(ReadingOne(m), env, compare) && Word(Or) !in one
    requires SameValue(more, rest, true, env, compare)
    ensures SameValue(one + [Word(And)] + more, [m] + [Word(And)] + rest, true, env, compare)
  {
    AloneMeans(m, env, compare);
    AndJoins(one, more, env, compare);
    AndJoins([m], rest, env, compare);
    MeaningParts(one + [Word(And)] + more, env, compare);
    MeaningParts([m] + [Word(And)] + rest, env, compare);
  }

  lemma {:induction false} JoinByOr(m: Mark, one: seq<Mark>, rest: seq<Mark>, more: seq<Mark>, env: Environment, compare: Comparison)
    requires !m.Word? && Meaning(one, env, compare) == Worth(ReadingOne(m), env, compare)
    requires SameValue(more, rest, false, env, compare)
    ensures SameValue(one + [Word(Or)] + more, [m] + [Word(Or)] + rest, Word(Or) !in one, env, compare)
  {
    AloneMeans(m, env, compare);
    OrMeans(one, more, env, compare);
    OrMeans([m], rest, env, compare);
    OrJoins(one, more, env, compare);
    OrJoins([m], rest, env, compare);
    SingleMeans(m, one, env, compare);
  }

  /** Without doubled parentheses nothing that has an `or` is opened. */
  lemma {:induction false} UndoubledIsHarmless(elems: seq<Mark>)
    requires Shaped(elems) && !DoubledBelow(elems)
    ensures Harmless(elems)
    decreases elems, 2
  {
    if Wraps(elems) && elems[0].List? {
      UndoubledIsHarmless(elems[0].elems);
    } else {
      ShapedItems(elems);
      UndoubledInside(elems, false);
    }
  }

  lemma {:induction false} UndoubledInside(elems: seq<Mark>, afterAnd: bool)
    requires AllShaped(elems) && !DoubledIn(elems)
    ensures HarmlessIn(elems, afterAnd)
    decreases elems, 1
  {
    if elems != [] {
      assert AllShaped(elems[1..]);
      UndoubledInside(elems[1..], elems[0].Word? && elems[0].word.And?);
      if !elems[0].Word? { UndoubledAt(elems[0]); }
    }
  }

  lemma {:induction false} UndoubledAt(m: Mark)
    requires ShapedOperand(m) && !DoubledAt(m)
    ensures HarmlessAt(m) && !OpensOr(m)
    decreases m, 3
  {
    RereadOneSurvives(m);
    UnwrapOneIsNoWord(m);
    if m.List? {
      if Wraps(m.elems) { NotDoubledInside(m.elems); }
      UndoubledIsHarmless(m.elems);
    }
  }

  lemma {:induction false} UnwrapOneIsNoWord(m: Mark)
    requires !m.Word?
    ensures !UnwrapOne(m).Word?
  {
  }

  /**
   The value, or the error, of what reads back is the same in every environment unless an opened
   operand with an `or` comes to stand beside an `and`; in particular where the tree survives.
   */
  lemma {:induction false} PrintingKeepsMeaning(elems: seq<Mark>, env: Environment, compare: Comparison)
    requires Shaped(elems)
    ensures var p := ParseMarker(FormatMarker(List(elems)));
      p.Got? && (Harmless(elems) ==> Meaning(p.elems, env, compare) == Meaning(elems, env, compare))
    ensures !DoubledBelow(elems) ==> Harmless(elems)
  {
    PrintedReadsBack(elems);
    if Harmless(elems) { RereadMeans(elems, env, compare); }
    if !DoubledBelow(elems) { UndoubledIsHarmless(elems); }
  }

  lemma {:induction false} TwoMeans(x: Mark, w: BoolOp, y: Mark, env: Environment, compare: Comparison)
    requires !x.Word? && !y.Word?
    ensures var a, b := Worth(ReadingOne(x), env, compare), Worth(ReadingOne(y), env, compare);
      Meaning([x, Word(w), y], env, compare) == if w.And? then Both(a, b) else Either(a, b)
  {
    var elems, tail := [x, Word(w), y], [Word(w), y];
    assert elems[1..] == tail && tail[1..] == [y];
    MeaningParts(elems, env, compare);
    HeadWorth(elems, env, compare);
    HeadWorth(tail, env, compare);
    AloneWorth(y, env, compare);
  }

  lemma {:induction false} OrAndMeans(x: Mark, y: Mark, z: Mark, env: Environment, compare: Comparison)
    requires !x.Word? && !y.Word? && !z.Word?
    ensures Meaning([x, Word(Or), y, Word(And), z], env, compare)
         == Either(Worth(ReadingOne(x), env, compare), Both(Worth(ReadingOne(y), env, compare), Worth(ReadingOne(z), env, compare)))
  {
    var elems, last := [x, Word(Or), y, Word(And), z], [y, Word(And), z];
    var tail := [Word(Or)] + last;
    assert elems[1..] == tail && tail[1..] == last;
    MeaningParts(elems, env, compare);
    HeadWorth(elems, env, compare);
    HeadWorth(tail, env, compare);
    TwoMeans(y, And, z, env, compare);
    MeaningParts(last, env, compare);
  }

  /** `((x or y)) and z` prints as `x or y and z`, which has another value when x holds and z does not. */
  lemma {:induction false} DoubledParenthesesLost(x: Mark, y: Mark, z: Mark, env: Environment, compare: Comparison)
    requires x.Item? && y.Item? && z.Item? && ShapedOperand(x) && ShapedOperand(y) && ShapedOperand(z)
    requires EvalItem(x, env, compare) == Truth(true) && EvalItem(y, env, compare).Truth?
    requires EvalItem(z, env, compare) == Truth(false)
    ensures var elems := [List([List([x, Word(Or), y])]), Word(And), z];
      && Shaped(elems)
      && Meaning(elems, env, compare) == Truth(false)
      && ParseMarker(FormatMarker(List(elems))) == Got([x, Word(Or), y, Word(And), z], [])
      && Meaning([x, Word(Or), y, Word(And), z], env, compare) == Truth(true)
  {
    var inner := [x, Word(Or), y];
    var doubled := List([List(inner)]);
    var elems := [doubled, Word(And), z];
    assert inner[2..] == [y] && elems[2..] == [z];
    assert Shaped([y]) && Shaped(inner) && Shaped([List(inner)]) && Shaped([z]);
    PrintedReadsBack(elems);
    assert Reread(elems) == [x, Word(Or), y, Word(And), z] by {
      RereadPlain(inner);
      assert RereadOne(doubled) == Reread([List(inner)]) == Reread(inner) == inner;
      assert elems[1..] == [Word(And), z];
      RereadPlain([Word(And), z]);
    }
    TwoMeans(x, Or, y, env, compare);
    AloneMeans(List(inner), env, compare);
    TwoMeans(doubled, And, z, env, compare);
    OrAndMeans(x, y, z, env, compare);
  }

  lemma {:induction false} RereadPlain(elems: seq<Mark>)
    requires forall i :: 0 <= i < |elems| ==> !elems[i].List?
    ensures RereadAll(elems) == elems
    decreases |elems|
  {
    if elems != [] { RereadPlain(elems[1..]); }
  }
}
