/**
 The pattern that also accepts what lies below a match: it accepts whatever begins with text
 that the plain pattern accepts.
 */
module GlobSubentries {
  import opened Texts
  import opened GlobTranslation
  import opened GlobMatching
  import opened GlobTheorems

  ghost predicate AcceptsWithEntries(parts: seq<string>, s: string, cs: Classes)
    requires parts != []
  {
    exists j :: Mid(0, j, |s|) && Matches(GlobRe(parts, true), s, 0, j, cs)
  }

  /** Nothing in the expression asks where the text ends. */
  predicate LooksBack(r: Re) {
    match r
    case End => false
    case Star(q) => LooksBack(q)
    case Plus(q) => LooksBack(q)
    case Opt(q) => LooksBack(q)
    case Group(q) => LooksBack(q)
    case DotAll(q) => LooksBack(q)
    case Behind(q) => LooksBack(q)
    case Cat(a, b) => LooksBack(a) && LooksBack(b)
    case Alt(a, b) => LooksBack(a) && LooksBack(b)
    case _ => true
  }

  /** Then what follows a match does not matter. */
  lemma {:induction false} MatchesInPrefix(r: Re, s: string, n: nat, i: nat, j: nat, cs: Classes)
    requires i <= j <= n <= |s| && LooksBack(r)
    ensures Matches(r, s[..n], i, j, cs) <==> Matches(r, s, i, j, cs)
    decreases Size(r), j - i + 1
  {
    match r
    case Star(q) =>
      forall k | i < k <= j
        ensures Matches(q, s[..n], i, k, cs) <==> Matches(q, s, i, k, cs)
        ensures Matches(r, s[..n], k, j, cs) <==> Matches(r, s, k, j, cs)
      {
        MatchesInPrefix(q, s, n, i, k, cs);
        MatchesInPrefix(r, s, n, k, j, cs);
      }
    case Plus(q) => PlusInPrefix(q, s, n, i, j, cs);
    case Opt(q) => MatchesInPrefix(q, s, n, i, j, cs);
    case Group(q) => MatchesInPrefix(q, s, n, i, j, cs);
    case DotAll(q) => MatchesInPrefix(q, s, n, i, j, cs);
    case Behind(q) =>
      forall k | 0 <= k <= i ensures Matches(q, s[..n], k, i, cs) <==> Matches(q, s, k, i, cs) {
        MatchesInPrefix(q, s, n, k, i, cs);
      }
    case Cat(a, b) => CatInPrefix(a, b, s, n, i, j, cs);
    case Alt(a, b) =>
      MatchesInPrefix(a, s, n, i, j, cs);
      MatchesInPrefix(b, s, n, i, j, cs);
    case _ =>
  }

  lemma {:induction false} PlusInPrefix(q: Re, s: string, n: nat, i: nat, j: nat, cs: Classes)
    requires i <= j <= n <= |s| && LooksBack(q)
    ensures Matches(Plus(q), s[..n], i, j, cs) <==> Matches(Plus(q), s, i, j, cs)
    decreases Size(q) + 2, 0
  {
    forall k | i <= k <= j
      ensures Matches(q, s[..n], i, k, cs) <==> Matches(q, s, i, k, cs)
      ensures Matches(Star(q), s[..n], k, j, cs) <==> Matches(Star(q), s, k, j, cs)
    {
      MatchesInPrefix(q, s, n, i, k, cs);
      MatchesInPrefix(Star(q), s, n, k, j, cs);
    }
  }

  lemma {:induction false} CatInPrefix(a: Re, b: Re, s: string, n: nat, i: nat, j: nat, cs: Classes)
    requires i <= j <= n <= |s| && LooksBack(a) && LooksBack(b)
    ensures Matches(Cat(a, b), s[..n], i, j, cs) <==> Matches(Cat(a, b), s, i, j, cs)
    decreases Size(a) + Size(b) + 1, 0
  {
    forall k | i <= k <= j
      ensures Matches(a, s[..n], i, k, cs) <==> Matches(a, s, i, k, cs)
      ensures Matches(b, s[..n], k, j, cs) <==> Matches(b, s, k, j, cs)
    {
      MatchesInPrefix(a, s, n, i, k, cs);
      MatchesInPrefix(b, s, n, k, j, cs);
    }
  }

  lemma {:induction false} TokensLookBack(ts: seq<Token>)
    ensures LooksBack(TokensRe(ts))
    decreases |ts|
  {
    if ts != [] {
      TokensLookBack(ts[1..]);
      assert LooksBack(TokenRe(ts[0]));
    }
  }

  lemma {:induction false} PartLooksBack(part: string)
    ensures LooksBack(PartRe(part))
  {
    if part != "**" { TokensLookBack(Tokens(part, 0)); }
  }

  lemma {:induction false} AnythingBelow(s: string, k: nat, cs: Classes)
    requires k <= |s|
    ensures Matches(ANY_BELOW, s, k, |s|, cs)
  {
    StarAny(s, k, |s|, cs);
    assert Matches(Opt(Sep), s, k, k, cs);
    CatIntro(Opt(Sep), Star(AnyChar), s, k, k, |s|, cs);
    assert Matches(Group(Cat(Opt(Sep), Star(AnyChar))), s, k, |s|, cs);
  }

  /** The expression matches from `i` to the end of some beginning of the text. */
  ghost predicate MatchesBeginning(r: Re, s: string, i: nat, cs: Classes)
    requires i <= |s|
  {
    exists n :: Mid(i, n, |s|) && MatchesUpTo(r, s, i, n, cs)
  }

  ghost predicate MatchesUpTo(r: Re, s: string, i: nat, n: nat, cs: Classes)
    requires i <= n <= |s|
  {
    Matches(r, s[..n], i, n, cs)
  }

  lemma {:induction false} LastPartBegins(part: string, s: string, i: nat, cs: Classes)
    requires part != "**" && i <= |s|
    ensures Matches(LastRe(part, true), s, i, |s|, cs) <==> MatchesBeginning(LastRe(part, false), s, i, cs)
  {
    PartLooksBack(part);
    if Matches(LastRe(part, true), s, i, |s|, cs) {
      var k := CatElim(PartRe(part), ANY_BELOW, s, i, |s|, cs);
      MatchesInPrefix(PartRe(part), s, k, i, k, cs);
      assert Matches(Opt(Sep), s[..k], k, k, cs);
      CatIntro(PartRe(part), Opt(Sep), s[..k], i, k, k, cs);
      assert Mid(i, k, |s|) && MatchesUpTo(LastRe(part, false), s, i, k, cs);
    }
    if n :| Mid(i, n, |s|) && MatchesUpTo(LastRe(part, false), s, i, n, cs) {
      var k := CatElim(PartRe(part), Opt(Sep), s[..n], i, n, cs);
      MatchesInPrefix(PartRe(part), s, n, i, k, cs);
      AnythingBelow(s, k, cs);
      CatIntro(PartRe(part), ANY_BELOW, s, i, k, |s|, cs);
    }
  }

  /** `full` matches to the end of the text where `plain` matches to the end of a beginning. */
  ghost predicate Extends(full: Re, plain: Re, s: string, cs: Classes) {
    forall k :: Mid(0, k, |s|) ==> (Matches(full, s, k, |s|, cs) <==> MatchesBeginning(plain, s, k, cs))
  }

  lemma {:induction false} FirstTaken(first: Re, full: Re, plain: Re, s: string, i: nat, cs: Classes)
    requires i <= |s| && LooksBack(first) && Extends(full, plain, s, cs)
    requires Matches(Cat(first, full), s, i, |s|, cs)
    ensures MatchesBeginning(Cat(first, plain), s, i, cs)
  {
    var k := CatElim(first, full, s, i, |s|, cs);
    assert Mid(0, k, |s|);
    var n :| Mid(k, n, |s|) && MatchesUpTo(plain, s, k, n, cs);
    MatchesInPrefix(first, s, n, i, k, cs);
    CatIntro(first, plain, s[..n], i, k, n, cs);
    assert Mid(i, n, |s|) && MatchesUpTo(Cat(first, plain), s, i, n, cs);
  }

  lemma {:induction false} FirstGiven(first: Re, full: Re, plain: Re, s: string, i: nat, n: nat, cs: Classes)
    requires i <= n <= |s| && LooksBack(first) && Extends(full, plain, s, cs)
    requires MatchesUpTo(Cat(first, plain), s, i, n, cs)
    ensures Matches(Cat(first, full), s, i, |s|, cs)
  {
    var k := CatElim(first, plain, s[..n], i, n, cs);
    MatchesInPrefix(first, s, n, i, k, cs);
    assert Mid(k, n, |s|) && MatchesUpTo(plain, s, k, n, cs) && Mid(0, k, |s|);
    CatIntro(first, full, s, i, k, |s|, cs);
  }

  lemma {:induction false} FirstExtends(first: Re, full: Re, plain: Re, s: string, cs: Classes)
    requires LooksBack(first) && Extends(full, plain, s, cs)
    ensures Extends(Cat(first, full), Cat(first, plain), s, cs)
  {
    forall i | Mid(0, i, |s|)
      ensures Matches(Cat(first, full), s, i, |s|, cs) <==> MatchesBeginning(Cat(first, plain), s, i, cs)
    {
      if Matches(Cat(first, full), s, i, |s|, cs) { FirstTaken(first, full, plain, s, i, cs); }
      if n :| Mid(i, n, |s|) && MatchesUpTo(Cat(first, plain), s, i, n, cs) { FirstGiven(first, full, plain, s, i, n, cs); }
    }
  }

  lemma {:induction false} PartsExtend(parts: seq<string>, s: string, cs: Classes)
    requires parts != [] && parts[|parts| - 1] != "**"
    ensures Extends(PartsRe(parts, true), PartsRe(parts, false), s, cs)
    decreases |parts|
  {
    if |parts| == 1 {
      forall i | Mid(0, i, |s|)
        ensures Matches(LastRe(parts[0], true), s, i, |s|, cs) <==> MatchesBeginning(LastRe(parts[0], false), s, i, cs)
      {
        LastPartBegins(parts[0], s, i, cs);
      }
    } else {
      var rest := parts[1..];
      PartsExtend(rest, s, cs);
      PartLooksBack(parts[0]);
      if parts[0] == "**" {
        FirstExtends(DOUBLE_STAR, PartsRe(rest, true), PartsRe(rest, false), s, cs);
      } else {
        FirstExtends(Sep, PartsRe(rest, true), PartsRe(rest, false), s, cs);
        FirstExtends(PartRe(parts[0]), Cat(Sep, PartsRe(rest, true)), Cat(Sep, PartsRe(rest, false)), s, cs);
      }
    }
  }

  lemma {:induction false} EntriesWhole(parts: seq<string>, s: string, cs: Classes)
    requires parts != []
    ensures AcceptsWithEntries(parts, s, cs) <==> Matches(PartsRe(parts, true), s, 0, |s|, cs)
  {
    if AcceptsWithEntries(parts, s, cs) {
      var j :| Mid(0, j, |s|) && Matches(GlobRe(parts, true), s, 0, j, cs);
      WholeElim(PartsRe(parts, true), s, j, cs);
    }
    if Matches(PartsRe(parts, true), s, 0, |s|, cs) {
      WholeIntro(PartsRe(parts, true), s, cs);
      assert Mid(0, |s|, |s|);
    }
  }

  /** With `**` at the end nothing changes. */
  lemma {:induction false} DoubleStarTakesEntries(parts: seq<string>, s: string, cs: Classes)
    requires parts != [] && parts[|parts| - 1] == "**"
    ensures AcceptsWithEntries(parts, s, cs) <==> GlobAccepts(parts, s, cs)
  {
    SameWithEntries(parts);
  }

  lemma {:induction false} SameWithEntries(parts: seq<string>)
    requires parts != [] && parts[|parts| - 1] == "**"
    ensures PartsRe(parts, true) == PartsRe(parts, false)
    decreases |parts|
  {
    if |parts| > 1 { SameWithEntries(parts[1..]); }
  }

  /**
   Otherwise a text is accepted exactly when it begins with text whose pieces can be handed out to
   the parts: also in the middle of a name, as `a` accepts `ab`.
   */
  lemma {:induction false} AcceptsBeginnings(parts: seq<string>, s: string, cs: Classes)
    requires parts != [] && parts[|parts| - 1] != "**"
    ensures AcceptsWithEntries(parts, s, cs) <==> exists n :: 0 <= n <= |s| && MatchSpans(parts, Split(s[..n], SEP), cs)
  {
    EntriesWhole(parts, s, cs);
    PartsExtend(parts, s, cs);
    assert Mid(0, 0, |s|);
    forall n | 0 <= n <= |s|
      ensures MatchesUpTo(PartsRe(parts, false), s, 0, n, cs) <==> MatchSpans(parts, Split(s[..n], SEP), cs)
    {
      AcceptsText(parts, s[..n], cs);
      AcceptsWhole(parts, s[..n], cs);
    }
    if n :| Mid(0, n, |s|) && MatchesUpTo(PartsRe(parts, false), s, 0, n, cs) {
      assert MatchSpans(parts, Split(s[..n], SEP), cs);
    }
    if n :| 0 <= n <= |s| && MatchSpans(parts, Split(s[..n], SEP), cs) {
      assert Mid(0, n, |s|) && MatchesUpTo(PartsRe(parts, false), s, 0, n, cs);
    }
  }
}
