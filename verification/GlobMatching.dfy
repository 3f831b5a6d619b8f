/**
 What the translated pattern matches.  `Matches` is the meaning of regular expressions over
 positions in the whole text (lookbehind sees what precedes a position); `MatchParts` is the
 meaning of a glob over the segments of a path.
 */
module GlobMatching {
  import opened Texts
  import opened GlobTranslation

  /** Which characters a bracket expression accepts; left to the regular expression engine. */
  type Classes = (string, char) -> bool

  function Size(r: Re): nat {
    match r
    case Star(q) => Size(q) + 1
    case Plus(q) => Size(q) + 2
    case Opt(q) => Size(q) + 1
    case Group(q) => Size(q) + 1
    case DotAll(q) => Size(q) + 1
    case Behind(q) => Size(q) + 1
    case Cat(a, b) => Size(a) + Size(b) + 1
    case Alt(a, b) => Size(a) + Size(b) + 1
    case _ => 0
  }

  /** A position between two others. */
  predicate Mid(i: int, k: int, j: int) {
    i <= k <= j
  }

  ghost predicate Matches(r: Re, s: string, i: nat, j: nat, cs: Classes)
    requires i <= j <= |s|
    decreases Size(r), j - i
  {
    match r
    case Empty => i == j
    case Lit(c) => j == i + 1 && s[i] == c
    case Sep => j == i + 1 && s[i] == SEP
    case NotSep => j == i + 1 && s[i] != SEP
    case AnyChar => j == i + 1
    case Class(stuff) => j == i + 1 && cs(stuff, s[i])
    case Start => i == j == 0
    case End => i == j == |s|
    case Star(q) => i == j || exists k :: Mid(i, k, j) && i < k && Matches(q, s, i, k, cs) && Matches(r, s, k, j, cs)
    case Plus(q) => exists k :: Mid(i, k, j) && Matches(q, s, i, k, cs) && Matches(Star(q), s, k, j, cs)
    case Opt(q) => i == j || Matches(q, s, i, j, cs)
    case Group(q) => Matches(q, s, i, j, cs)
    case DotAll(q) => Matches(q, s, i, j, cs)
    case Behind(q) => i == j && exists k :: Mid(0, k, i) && Matches(q, s, k, i, cs)
    case Cat(a, b) => exists k :: Mid(i, k, j) && Matches(a, s, i, k, cs) && Matches(b, s, k, j, cs)
    case Alt(a, b) => Matches(a, s, i, j, cs) || Matches(b, s, i, j, cs)
  }

  /** `re.match` with the translated pattern, which is anchored at both ends. */
  ghost predicate GlobAccepts(parts: seq<string>, s: string, cs: Classes)
    requires parts != []
  {
    exists j :: Mid(0, j, |s|) && Matches(GlobRe(parts, false), s, 0, j, cs)
  }

  // ----- what the tokens of a part stand for -----

  predicate NoSep(t: string) {
    forall k :: 0 <= k < |t| ==> t[k] != SEP
  }

  /** What one token of a part stands for. */
  predicate MatchToken(t: Token, u: string, cs: Classes) {
    match t
    case TChar(c) => u == [c]
    case TClass(stuff) => |u| == 1 && cs(stuff, u[0])
    case TQuestion => |u| <= 1 && NoSep(u)
    case TStar => NoSep(u)
  }

  /** A text matches a list of tokens when it is cut into pieces, one for each token. */
  predicate MatchTokens(ts: seq<Token>, t: string, cs: Classes)
    decreases |ts|
  {
    if ts == [] then t == ""
    else exists k :: 0 <= k <= |t| && MatchToken(ts[0], t[..k], cs) && MatchTokens(ts[1..], t[k..], cs)
  }

  // ----- what the characters of a part stand for -----

  /** The bracket expression opened at `i` closes at `j`: at the first `]` that is not its first character. */
  predicate Closes(pat: string, i: nat, j: nat)
    requires i < |pat|
  {
    var first := if i + 1 < |pat| && pat[i + 1] == '!' then i + 2 else i + 1;
    first < j < |pat| && pat[j] == ']' && forall m :: first < m < j ==> pat[m] != ']'
  }

  /**
   The characters between brackets as the regular expression engine is asked for them: every
   backslash is doubled, a leading `!` negates, and a leading `^` stands for itself.
   */
  predicate InBracket(raw: string, c: char, cs: Classes)
    requires raw != ""
  {
    if raw[0] == '!' then cs("^" + ReplaceText(raw[1..], "\\", "\\\\"), c)
    else if raw[0] == '^' then cs("\\" + ReplaceText(raw, "\\", "\\\\"), c)
    else cs(ReplaceText(raw, "\\", "\\\\"), c)
  }

  /**
   Character by character: `*` is any run without a separator, `?` at most one such character, a
   bracket expression that closes is one character of its class, and everything else is itself.
   */
  ghost predicate PartMatches(pat: string, i: nat, t: string, cs: Classes)
    requires i <= |pat|
    decreases |pat| - i, |t|
  {
    if i == |pat| then t == ""
    else if pat[i] == '*' then
      PartMatches(pat, i + 1, t, cs) || (t != "" && t[0] != '/' && PartMatches(pat, i, t[1..], cs))
    else if pat[i] == '?' then
      PartMatches(pat, i + 1, t, cs) || (t != "" && t[0] != '/' && PartMatches(pat, i + 1, t[1..], cs))
    else if pat[i] == '[' && exists j: nat :: Closes(pat, i, j) then
      exists j: nat :: Closes(pat, i, j) && t != "" && InBracket(pat[i + 1..j], t[0], cs) && PartMatches(pat, j + 1, t[1..], cs)
    else
      t != "" && t[0] == pat[i] && PartMatches(pat, i + 1, t[1..], cs)
  }

  lemma {:induction false} DoubledByReplacing(s: string)
    ensures DoubleBackslashes(s) == ReplaceText(s, "\\", "\\\\")
    decreases |s|
  {
    if s != "" {
      DoubledByReplacing(s[1..]);
      assert s[..1] == [s[0]];
    }
  }

  lemma {:induction false} BracketIsClass(raw: string, c: char, cs: Classes)
    requires raw != ""
    ensures cs(ClassBody(raw), c) <==> InBracket(raw, c, cs)
  {
    DoubledByReplacing(raw);
    DoubledByReplacing(raw[1..]);
    if raw[0] == '!' {
      assert DoubleBackslashes(raw)[1..] == DoubleBackslashes(raw[1..]);
    }
  }

  lemma {:induction false} ClosesThere(pat: string, i: nat, j: nat)
    requires i < |pat|
    ensures Closes(pat, i, j) <==> j == ClassClose(pat, i + 1) < |pat|
  {
  }

  lemma {:induction false} TokenFirst(tok: Token, ts: seq<Token>, t: string, cs: Classes)
    requires tok.TChar? || tok.TClass?
    ensures MatchTokens([tok] + ts, t, cs) <==> t != "" && MatchToken(tok, [t[0]], cs) && MatchTokens(ts, t[1..], cs)
  {
    assert ([tok] + ts)[1..] == ts;
    if t != "" { assert t[..1] == [t[0]]; }
    if k :| 0 <= k <= |t| && MatchToken(tok, t[..k], cs) && MatchTokens(ts, t[k..], cs) { assert k == 1; }
  }

  lemma {:induction false} QuestionFirst(ts: seq<Token>, t: string, cs: Classes)
    ensures MatchTokens([TQuestion] + ts, t, cs)
      <==> MatchTokens(ts, t, cs) || (t != "" && t[0] != SEP && MatchTokens(ts, t[1..], cs))
  {
    assert ([TQuestion] + ts)[1..] == ts;
    assert t[..0] == "" && t[0..] == t;
    if t != "" { assert t[..1] == [t[0]]; }
    if k :| 0 <= k <= |t| && MatchToken(TQuestion, t[..k], cs) && MatchTokens(ts, t[k..], cs) {
      assert k == 0 || (k == 1 && t[..1][0] != SEP);
    }
  }

  lemma {:induction false} StarTakes(ts: seq<Token>, t: string, cs: Classes)
    requires MatchTokens([TStar] + ts, t, cs)
    ensures MatchTokens(ts, t, cs) || (t != "" && t[0] != SEP && MatchTokens([TStar] + ts, t[1..], cs))
  {
    assert ([TStar] + ts)[1..] == ts;
    var k :| 0 <= k <= |t| && MatchToken(TStar, t[..k], cs) && MatchTokens(ts, t[k..], cs);
    if k == 0 {
      assert t[0..] == t;
    } else {
      assert t[..k][0] == t[0] && t[1..][..k - 1] == t[..k][1..] && t[1..][k - 1..] == t[k..];
    }
  }

  lemma {:induction false} StarMayTake(ts: seq<Token>, t: string, cs: Classes)
    requires t != "" && t[0] != SEP && MatchTokens([TStar] + ts, t[1..], cs)
    ensures MatchTokens([TStar] + ts, t, cs)
  {
    assert ([TStar] + ts)[1..] == ts;
    var rest := t[1..];
    var k :| 0 <= k <= |rest| && MatchToken(TStar, rest[..k], cs) && MatchTokens(ts, rest[k..], cs);
    assert t[..k + 1] == [t[0]] + rest[..k] && rest[k..] == t[k + 1..];
  }

  lemma {:induction false} StarFirst(ts: seq<Token>, t: string, cs: Classes)
    ensures MatchTokens([TStar] + ts, t, cs)
      <==> MatchTokens(ts, t, cs) || (t != "" && t[0] != SEP && MatchTokens([TStar] + ts, t[1..], cs))
  {
    if MatchTokens([TStar] + ts, t, cs) { StarTakes(ts, t, cs); }
    if t != "" && t[0] != SEP && MatchTokens([TStar] + ts, t[1..], cs) { StarMayTake(ts, t, cs); }
    if MatchTokens(ts, t, cs) {
      assert ([TStar] + ts)[1..] == ts && t[..0] == "" && t[0..] == t;
    }
  }

  /** The tokens of a part mean what its characters stand for. */
  lemma {:induction false} TokensMean(pat: string, i: nat, t: string, cs: Classes)
    requires i <= |pat|
    ensures MatchTokens(Tokens(pat, i), t, cs) <==> PartMatches(pat, i, t, cs)
    decreases |pat| - i, |t|
  {
    if i < |pat| {
      var tok, next := TokenAt(pat, i), AfterToken(pat, i);
      var rest := Tokens(pat, next);
      assert Tokens(pat, i) == [tok] + rest;
      if pat[i] == '*' {
        StarFirst(rest, t, cs);
        TokensMean(pat, i + 1, t, cs);
        if t != "" { TokensMean(pat, i, t[1..], cs); }
      } else if pat[i] == '?' {
        QuestionFirst(rest, t, cs);
        TokensMean(pat, i + 1, t, cs);
        if t != "" { TokensMean(pat, i + 1, t[1..], cs); }
      } else {
        TokenFirst(tok, rest, t, cs);
        if t != "" { TokensMean(pat, next, t[1..], cs); }
        OneCharacter(pat, i, t, cs);
      }
    }
  }

  lemma {:induction false} OneCharacter(pat: string, i: nat, t: string, cs: Classes)
    requires i < |pat| && pat[i] != '*' && pat[i] != '?'
    ensures PartMatches(pat, i, t, cs)
      <==> t != "" && MatchToken(TokenAt(pat, i), [t[0]], cs) && PartMatches(pat, AfterToken(pat, i), t[1..], cs)
  {
    if pat[i] == '[' {
      forall j: nat ensures Closes(pat, i, j) <==> j == ClassClose(pat, i + 1) < |pat| {
        ClosesThere(pat, i, j);
      }
      var j := ClassClose(pat, i + 1);
      if j < |pat| {
        assert Closes(pat, i, j);
        if t != "" { BracketIsClass(pat[i + 1..j], t[0], cs); }
      }
    }
  }

  // ----- globs over segments -----

  /**
   Segment by segment: an inner `**` stands for zero or more whole segments, a final `**` for
   one or more, any other part for one segment.
   */
  ghost predicate MatchParts(parts: seq<string>, segs: seq<string>, cs: Classes)
    requires parts != []
    decreases |parts|
  {
    if |parts| == 1 then
      if parts[0] == "**" then |segs| >= 1 else |segs| == 1 && PartMatches(parts[0], 0, segs[0], cs)
    else if parts[0] == "**" then
      exists k :: 0 <= k <= |segs| && MatchParts(parts[1..], segs[k..], cs)
    else
      segs != [] && PartMatches(parts[0], 0, segs[0], cs) && MatchParts(parts[1..], segs[1..], cs)
  }

  // ----- parts that cover several segments -----

  /** The pieces of any text between its separators. */
  predicate Pieces(segs: seq<string>) {
    segs != [] && forall k :: 0 <= k < |segs| ==> NoSep(segs[k])
  }

  /** The last part stands for all the rest; one trailing separator may follow what it matches. */
  ghost predicate CoversRest(part: string, segs: seq<string>, cs: Classes) {
    segs != [] &&
    if part == "**" then Join(segs, SEP) != ""
    else
      || PartMatches(part, 0, Join(segs, SEP), cs)
      || (|segs| > 1 && segs[|segs| - 1] == "" && PartMatches(part, 0, Join(segs[..|segs| - 1], SEP), cs))
  }

  /** Each part stands for as many segments as `cover` says: any number for `**`, at least one for others. */
  ghost predicate Spans(parts: seq<string>, segs: seq<string>, cover: seq<nat>, cs: Classes)
    requires parts != []
    decreases |parts|
  {
    |cover| == |parts| &&
    if |parts| == 1 then cover[0] == |segs| && CoversRest(parts[0], segs, cs)
    else
      && cover[0] < |segs|
      && (parts[0] != "**" ==> cover[0] >= 1 && PartMatches(parts[0], 0, Join(segs[..cover[0]], SEP), cs))
      && Spans(parts[1..], segs[cover[0]..], cover[1..], cs)
  }

  ghost predicate SpannedBy(parts: seq<string>, segs: seq<string>, cover: seq<nat>, cs: Classes) {
    parts != [] && Spans(parts, segs, cover, cs)
  }

  /** The segments can be handed out to the parts in order. */
  ghost predicate MatchSpans(parts: seq<string>, segs: seq<string>, cs: Classes) {
    exists cover :: SpannedBy(parts, segs, cover, cs)
  }

  /** No part but `**` stands for more than one segment. */
  predicate Narrow(parts: seq<string>, cover: seq<nat>) {
    forall i :: 0 <= i < |parts| && i < |cover| && parts[i] != "**" ==> cover[i] == 1
  }

  predicate Segment(t: string) {
    t != "" && NoSep(t)
  }

  predicate Segments(segs: seq<string>) {
    segs != [] && forall k :: 0 <= k < |segs| ==> Segment(segs[k])
  }

  /** No bracket expression of the part accepts a separator. */
  predicate SafeToken(t: Token, cs: Classes) {
    match t
    case TChar(c) => c != SEP
    case TClass(stuff) => !cs(stuff, SEP)
    case _ => true
  }

  predicate SafePart(part: string, cs: Classes) {
    forall k :: 0 <= k < |Tokens(part, 0)| ==> SafeToken(Tokens(part, 0)[k], cs)
  }

  predicate SafeParts(parts: seq<string>, cs: Classes) {
    forall k :: 0 <= k < |parts| ==> SafePart(parts[k], cs)
  }

  // ----- the building blocks of the translation -----

  lemma {:induction false} StarNotSep(s: string, i: nat, j: nat, cs: Classes)
    requires i <= j <= |s|
    ensures Matches(Star(NotSep), s, i, j, cs) <==> NoSep(s[i..j])
    decreases j - i
  {
    if i < j {
      StarNotSep(s, i + 1, j, cs);
      var t := s[i..j];
      assert t[0] == s[i] && t[1..] == s[i + 1..j];
      if NoSep(t) {
        assert NoSep(t[1..]);
        assert Matches(NotSep, s, i, i + 1, cs) && Matches(Star(NotSep), s, i + 1, j, cs);
      }
      if Matches(Star(NotSep), s, i, j, cs) {
        var k :| Mid(i, k, j) && i < k && Matches(NotSep, s, i, k, cs) && Matches(Star(NotSep), s, k, j, cs);
        assert k == i + 1;
        assert forall m :: 0 < m < |t| ==> t[m] == t[1..][m - 1];
      }
    }
  }

  lemma {:induction false} StarAny(s: string, i: nat, j: nat, cs: Classes)
    requires i <= j <= |s|
    ensures Matches(Star(AnyChar), s, i, j, cs)
    decreases j - i
  {
    if i < j {
      StarAny(s, i + 1, j, cs);
      assert Matches(AnyChar, s, i, i + 1, cs);
    }
  }

  /** Inner `**`: from `i` to any later position that starts a segment. */
  lemma {:induction false} DoubleStarMatches(s: string, i: nat, j: nat, cs: Classes)
    requires i <= j <= |s|
    ensures Matches(DOUBLE_STAR, s, i, j, cs) <==> j == 0 || s[j - 1] == SEP
  {
    var look := Alt(Behind(Group(Sep)), Behind(Group(Start)));
    forall k | i <= k <= j
      ensures Matches(Group(look), s, k, j, cs) <==> k == j && (j == 0 || s[j - 1] == SEP)
    {
      LookBehind(s, k, j, cs);
    }
    StarAny(s, i, j, cs);
  }

  lemma {:induction false} LookBehind(s: string, k: nat, j: nat, cs: Classes)
    requires k <= j <= |s|
    ensures Matches(Group(Alt(Behind(Group(Sep)), Behind(Group(Start)))), s, k, j, cs)
      <==> k == j && (j == 0 || s[j - 1] == SEP)
  {
    var sep, start := Behind(Group(Sep)), Behind(Group(Start));
    assert Matches(sep, s, k, j, cs) <==> k == j && j > 0 && s[j - 1] == SEP by {
      assert forall m :: Mid(0, m, j) ==> (Matches(Group(Sep), s, m, j, cs) <==> j == m + 1 && s[m] == SEP);
      assert j > 0 ==> Mid(0, j - 1, j);
    }
    assert Matches(start, s, k, j, cs) <==> k == j && j == 0 by {
      assert forall m :: Mid(0, m, j) ==> (Matches(Group(Start), s, m, j, cs) <==> m == j == 0);
      assert Mid(0, 0, j);
    }
    assert Matches(Alt(sep, start), s, k, j, cs) <==> Matches(sep, s, k, j, cs) || Matches(start, s, k, j, cs);
  }

  /** Final `**`: at least one character, and then everything. */
  lemma {:induction false} FinalDoubleStar(s: string, i: nat, cs: Classes)
    requires i <= |s|
    ensures Matches(Cat(Plus(AnyChar), ANY_BELOW), s, i, |s|, cs) <==> i < |s|
  {
    if i < |s| {
      assert Matches(AnyChar, s, i, i + 1, cs);
      StarAny(s, i + 1, |s|, cs);
      assert Matches(Plus(AnyChar), s, i, |s|, cs);
      assert Matches(ANY_BELOW, s, |s|, |s|, cs);
    } else {
      assert !Matches(Plus(AnyChar), s, i, i, cs);
    }
  }

  lemma {:induction false} OptNotSep(s: string, i: nat, k: nat, cs: Classes)
    requires i <= k <= |s|
    ensures Matches(Opt(NotSep), s, i, k, cs) <==> k == i || (k == i + 1 && s[i] != SEP)
  {
    assert Matches(NotSep, s, i, k, cs) <==> k == i + 1 && s[i] != SEP;
  }

  lemma {:induction false} TokenMatches(t: Token, s: string, i: nat, k: nat, cs: Classes)
    requires i <= k <= |s|
    ensures Matches(TokenRe(t), s, i, k, cs) <==> MatchToken(t, s[i..k], cs)
  {
    var u := s[i..k];
    match t
    case TChar(c) => assert k == i + 1 ==> u == [s[i]];
    case TClass(stuff) => assert k == i + 1 ==> u == [s[i]];
    case TQuestion =>
      OptNotSep(s, i, k, cs);
      assert k == i + 1 ==> u == [s[i]];
    case TStar => StarNotSep(s, i, k, cs);
  }

  lemma {:induction false} CatIntro(a: Re, b: Re, s: string, i: nat, k: nat, j: nat, cs: Classes)
    requires i <= k <= j <= |s| && Matches(a, s, i, k, cs) && Matches(b, s, k, j, cs)
    ensures Matches(Cat(a, b), s, i, j, cs)
  {
    assert Mid(i, k, j);
  }

  lemma {:induction false} CatElim(a: Re, b: Re, s: string, i: nat, j: nat, cs: Classes) returns (k: nat)
    requires i <= j <= |s| && Matches(Cat(a, b), s, i, j, cs)
    ensures i <= k <= j && Matches(a, s, i, k, cs) && Matches(b, s, k, j, cs)
  {
    k :| Mid(i, k, j) && Matches(a, s, i, k, cs) && Matches(b, s, k, j, cs);
  }

  lemma Slices(s: string, i: nat, k: nat, j: nat)
    requires i <= k <= j <= |s|
    ensures s[i..j][..k - i] == s[i..k] && s[i..j][k - i..] == s[k..j]
  {
  }

  lemma {:induction false} MatchedByRe(ts: seq<Token>, s: string, i: nat, j: nat, cs: Classes)
    requires i <= j <= |s| && Matches(TokensRe(ts), s, i, j, cs)
    ensures MatchTokens(ts, s[i..j], cs)
    decreases |ts|
  {
    if ts != [] {
      var t := s[i..j];
      var k := CatElim(TokenRe(ts[0]), TokensRe(ts[1..]), s, i, j, cs);
      TokenMatches(ts[0], s, i, k, cs);
      MatchedByRe(ts[1..], s, k, j, cs);
      Slices(s, i, k, j);
    }
  }

  lemma {:induction false} FirstPiece(ts: seq<Token>, t: string, cs: Classes) returns (m: nat)
    requires ts != [] && MatchTokens(ts, t, cs)
    ensures m <= |t| && MatchToken(ts[0], t[..m], cs) && MatchTokens(ts[1..], t[m..], cs)
  {
    m :| 0 <= m <= |t| && MatchToken(ts[0], t[..m], cs) && MatchTokens(ts[1..], t[m..], cs);
  }

  lemma {:induction false} TokensIntro(ts: seq<Token>, s: string, i: nat, k: nat, j: nat, cs: Classes)
    requires ts != [] && i <= k <= j <= |s|
    requires Matches(TokenRe(ts[0]), s, i, k, cs) && Matches(TokensRe(ts[1..]), s, k, j, cs)
    ensures Matches(TokensRe(ts), s, i, j, cs)
  {
    CatIntro(TokenRe(ts[0]), TokensRe(ts[1..]), s, i, k, j, cs);
    assert TokensRe(ts) == Cat(TokenRe(ts[0]), TokensRe(ts[1..]));
  }

  lemma {:induction false} MatchedByTokens(ts: seq<Token>, s: string, i: nat, j: nat, cs: Classes)
    requires i <= j <= |s| && MatchTokens(ts, s[i..j], cs)
    ensures Matches(TokensRe(ts), s, i, j, cs)
    decreases |ts|
  {
    if ts == [] {
      assert i == j;
    } else {
      var m := FirstPiece(ts, s[i..j], cs);
      var k := i + m;
      Slices(s, i, k, j);
      TokenMatches(ts[0], s, i, k, cs);
      MatchedByTokens(ts[1..], s, k, j, cs);
      TokensIntro(ts, s, i, k, j, cs);
    }
  }

  /** The translation of a token list matches exactly the texts that the tokens match. */
  lemma {:induction false} TokensMatch(ts: seq<Token>, s: string, i: nat, j: nat, cs: Classes)
    requires i <= j <= |s|
    ensures Matches(TokensRe(ts), s, i, j, cs) <==> MatchTokens(ts, s[i..j], cs)
  {
    if Matches(TokensRe(ts), s, i, j, cs) { MatchedByRe(ts, s, i, j, cs); }
    if MatchTokens(ts, s[i..j], cs) { MatchedByTokens(ts, s, i, j, cs); }
  }

  /** The translation of a part matches exactly what its characters stand for. */
  lemma {:induction false} PartTranslated(part: string, s: string, i: nat, j: nat, cs: Classes)
    requires part != "**" && i <= j <= |s|
    ensures Matches(PartRe(part), s, i, j, cs) <==> PartMatches(part, 0, s[i..j], cs)
  {
    TokensMatch(Tokens(part, 0), s, i, j, cs);
    TokensMean(part, 0, s[i..j], cs);
  }

  /** Text matched by safe tokens holds no separator. */
  lemma {:induction false} SafeTokensStayInside(ts: seq<Token>, t: string, cs: Classes)
    requires forall k :: 0 <= k < |ts| ==> SafeToken(ts[k], cs)
    requires MatchTokens(ts, t, cs)
    ensures NoSep(t)
    decreases |ts|
  {
    if ts != [] {
      var k :| 0 <= k <= |t| && MatchToken(ts[0], t[..k], cs) && MatchTokens(ts[1..], t[k..], cs);
      SafeTokensStayInside(ts[1..], t[k..], cs);
      assert SafeToken(ts[0], cs) && NoSep(t[..k]);
      forall m | 0 <= m < |t| ensures t[m] != SEP {
        if m < k {
          assert t[m] == t[..k][m];
        } else {
          assert t[m] == t[k..][m - k];
        }
      }
    }
  }

  // ----- positions in a joined path -----

  /** A position where a segment can start. */
  predicate AtStart(s: string, i: nat)
    requires i <= |s|
  {
    i == 0 || s[i - 1] == SEP
  }

  /** How far behind the start of a path its segment number `n` starts. */
  function Offset(segs: seq<string>, n: nat): nat
    requires n < |segs|
  {
    if n == 0 then 0 else |Join(segs[..n], SEP)| + 1
  }

  lemma {:induction false} OffsetStep(segs: seq<string>, n: nat)
    requires n + 1 < |segs|
    ensures Offset(segs, n + 1) == |segs[0]| + 1 + Offset(segs[1..], n)
  {
    assert segs[..n + 1][1..] == segs[1..][..n];
  }

  /** The positions where a segment starts are those in front of a tail of the segments. */
  lemma {:induction false} StartsAreTails(pre: string, segs: seq<string>, k: nat) returns (n: nat)
    requires Pieces(segs) && |pre| <= k <= |pre + Join(segs, SEP)|
    requires k == |pre| || (pre + Join(segs, SEP))[k - 1] == SEP
    ensures n < |segs| && k == |pre| + Offset(segs, n)
    decreases |segs|
  {
    n := 0;
    if k > |pre| {
      var s := pre + Join(segs, SEP);
      assert NoSep(segs[0]);
      assert forall m :: 0 <= m < |segs[0]| ==> s[|pre| + m] == segs[0][m];
      assert |segs| > 1;
      var next := pre + segs[0] + [SEP];
      assert s == next + Join(segs[1..], SEP);
      var n' := StartsAreTails(next, segs[1..], k);
      OffsetStep(segs, n');
      n := n' + 1;
    }
  }

  lemma {:induction false} TailIsStart(pre: string, segs: seq<string>, n: nat) returns (pre': string)
    requires Pieces(segs) && n < |segs| && AtStart(pre + Join(segs, SEP), |pre|)
    ensures |pre'| == |pre| + Offset(segs, n) && pre + Join(segs, SEP) == pre' + Join(segs[n..], SEP)
    ensures AtStart(pre + Join(segs, SEP), |pre'|)
    decreases n
  {
    pre' := pre;
    assert segs[0..] == segs;
    if n > 0 {
      var next := pre + segs[0] + [SEP];
      assert pre + Join(segs, SEP) == next + Join(segs[1..], SEP);
      pre' := TailIsStart(next, segs[1..], n - 1);
      OffsetStep(segs, n - 1);
      assert segs[1..][n - 1..] == segs[n..];
    }
  }

  /** The text in front of the separator before a tail is the path of the other segments. */
  lemma {:induction false} JoinCut(segs: seq<string>, n: nat)
    requires 0 < n < |segs|
    ensures Join(segs, SEP) == Join(segs[..n], SEP) + [SEP] + Join(segs[n..], SEP)
    decreases n
  {
    if n == 1 {
      assert segs[..1] == [segs[0]];
    } else {
      JoinCut(segs[1..], n - 1);
      assert segs[1..][..n - 1] == segs[..n][1..] && segs[1..][n - 1..] == segs[n..];
    }
  }

  lemma {:induction false} JoinOne(segs: seq<string>)
    requires segs != []
    ensures Join(segs[..1], SEP) == segs[0]
  {
    assert segs[..1] == [segs[0]];
  }
}
