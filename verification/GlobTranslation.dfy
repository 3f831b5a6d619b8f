/**
 Translation of glob patterns to regular expressions.  The translator produces text; the
 syntax tree whose text that is carries the meaning.
 */
module GlobTranslation {
  import opened Common
  import opened Texts

  // ----- splitting a path -----

  function RFind(p: string): (i: int)
    ensures -1 <= i < |p|
    ensures i >= 0 ==> p[i] == SEP
    ensures forall k :: i < k < |p| ==> p[k] != SEP
  {
    if p == "" then -1
    else if p[|p| - 1] == SEP then |p| - 1
    else RFind(p[..|p| - 1])
  }

  predicate AllSeparators(p: string) {
    forall k :: 0 <= k < |p| ==> p[k] == SEP
  }

  function RStripSeparators(p: string): (r: string)
    ensures |r| <= |p|
  {
    if p != "" && p[|p| - 1] == SEP then RStripSeparators(p[..|p| - 1]) else p
  }

  /** `os.path.split` on POSIX. */
  function SplitPath(p: string): (string, string) {
    var i := RFind(p) + 1;
    var head, tail := p[..i], p[i..];
    (if head != "" && !AllSeparators(head) then RStripSeparators(head) else head, tail)
  }

  lemma SplitIsSmaller(p: string)
    requires var (head, tail) := SplitPath(p); head != "" && (tail != "" || head != p)
    ensures |SplitPath(p).0| < |p|
  {
  }

  function ExplodePath(p: string): seq<string>
    decreases |p|
  {
    var (head, tail) := SplitPath(p);
    if head == "" || (tail == "" && head == p) then
      (if head != "" then [head] else []) + (if tail != "" || head == "" then [tail] else [])
    else
      SplitIsSmaller(p);
      ExplodePath(head) + [tail]
  }

  // ----- regular expressions -----

  datatype Re =
    | Empty
    | Lit(c: char)
    | Sep                     // the separator class
    | NotSep                  // the negated separator class
    | AnyChar                 // the dot, which matches every character here
    | Class(stuff: string)
    | Start
    | End
    | Star(r: Re)
    | Plus(r: Re)
    | Opt(r: Re)
    | Group(r: Re)
    | DotAll(r: Re)
    | Behind(r: Re)
    | Cat(a: Re, b: Re)
    | Alt(a: Re, b: Re)

  /** The characters that `re.escape` puts a backslash before. */
  const SPECIAL := "()[]{}?*+-|^$\\.&~# \t\n\r\U{0B}\U{0C}"

  function Escape(c: char): string {
    if c in SPECIAL then ['\\', c] else [c]
  }

  function Text(r: Re): string {
    match r
    case Empty => ""
    case Lit(c) => Escape(c)
    case Sep => "[/]"
    case NotSep => "[^/]"
    case AnyChar => "."
    case Class(stuff) => "[" + stuff + "]"
    case Start => "\\A"
    case End => "\\Z"
    case Star(q) => Text(q) + "*"
    case Plus(q) => Text(q) + "+"
    case Opt(q) => Text(q) + "?"
    case Group(q) => "(" + Text(q) + ")"
    case DotAll(q) => "(?s:" + Text(q) + ")"
    case Behind(q) => "(?<=" + Text(q) + ")"
    case Cat(a, b) => Text(a) + Text(b)
    case Alt(a, b) => Text(a) + "|" + Text(b)
  }

  /**
   A character that means something in an expression gets a backslash; a letter, a digit or an
   underscore does not, since with one it would mean something else.
   */
  lemma {:induction false} EscapeHides(c: char)
    ensures c in ".^$*+?{}[]\\|()" ==> Text(Lit(c)) == ['\\', c]
    ensures 'a' <= c <= 'z' || 'A' <= c <= 'Z' || '0' <= c <= '9' || c == '_' ==> Text(Lit(c)) == [c]
  {
    SpecialsAreEscaped(c);
    if 'a' <= c <= 'z' || 'A' <= c <= 'Z' || '0' <= c <= '9' || c == '_' { PlainAreNot(c); }
  }

  lemma {:induction false} SpecialsAreEscaped(c: char)
    ensures c in ".^$*+?{}[]\\|()" ==> c in SPECIAL
  {
    var s := SPECIAL;
    assert s[0] == '(' && s[1] == ')' && s[2] == '[' && s[3] == ']' && s[4] == '{' && s[5] == '}' && s[6] == '?';
    assert s[7] == '*' && s[8] == '+' && s[10] == '|' && s[11] == '^' && s[12] == '$' && s[13] == '\\' && s[14] == '.';
  }

  lemma {:induction false} PlainAreNot(c: char)
    requires 'a' <= c <= 'z' || 'A' <= c <= 'Z' || '0' <= c <= '9' || c == '_'
    ensures c !in SPECIAL
  {
  }

  // ----- one part of a pattern -----

  datatype Token = TChar(c: char) | TStar | TQuestion | TClass(stuff: string)

  function FindFrom(pat: string, c: char, j: nat): (k: nat)
    requires j <= |pat|
    ensures j <= k <= |pat|
    ensures k < |pat| ==> pat[k] == c
    ensures forall m :: j <= m < k ==> pat[m] != c
    decreases |pat| - j
  {
    if j < |pat| && pat[j] != c then FindFrom(pat, c, j + 1) else j
  }

  /** Where the bracket expression opened just before `i` closes; `|pat|` if it does not. */
  function ClassClose(pat: string, i: nat): (j: nat)
    requires i <= |pat|
    ensures i <= j <= |pat|
    ensures j < |pat| ==> i < j
  {
    var j0 := if i < |pat| && pat[i] == '!' then i + 1 else i;
    var j1 := if j0 < |pat| && pat[j0] == ']' then j0 + 1 else j0;
    FindFrom(pat, ']', j1)
  }

  function DoubleBackslashes(s: string): (r: string)
    ensures s != "" ==> r != ""
  {
    if s == "" then "" else (if s[0] == '\\' then "\\\\" else [s[0]]) + DoubleBackslashes(s[1..])
  }

  function ClassBody(raw: string): string
    requires raw != ""
  {
    var stuff := DoubleBackslashes(raw);
    if stuff[0] == '!' then "^" + stuff[1..]
    else if stuff[0] == '^' then "\\" + stuff
    else stuff
  }

  function TokenAt(pat: string, i: nat): Token
    requires i < |pat|
  {
    if pat[i] == '*' then TStar
    else if pat[i] == '?' then TQuestion
    else if pat[i] == '[' && ClassClose(pat, i + 1) < |pat| then TClass(ClassBody(pat[i + 1..ClassClose(pat, i + 1)]))
    else TChar(pat[i])
  }

  function AfterToken(pat: string, i: nat): (next: nat)
    requires i < |pat|
    ensures i < next <= |pat|
  {
    if pat[i] == '[' && ClassClose(pat, i + 1) < |pat| then ClassClose(pat, i + 1) + 1 else i + 1
  }

  function Tokens(pat: string, i: nat): seq<Token>
    decreases |pat| - i
  {
    if i >= |pat| then [] else [TokenAt(pat, i)] + Tokens(pat, AfterToken(pat, i))
  }

  function TokenRe(t: Token): Re {
    match t
    case TChar(c) => Lit(c)
    case TStar => Star(NotSep)
    case TQuestion => Opt(NotSep)
    case TClass(stuff) => Class(stuff)
  }

  function TokensRe(ts: seq<Token>): Re {
    if ts == [] then Empty else Cat(TokenRe(ts[0]), TokensRe(ts[1..]))
  }

  const DOUBLE_STAR := Cat(Star(AnyChar), Group(Alt(Behind(Group(Sep)), Behind(Group(Start)))))

  function PartRe(pat: string): Re {
    if pat == "**" then DOUBLE_STAR else TokensRe(Tokens(pat, 0))
  }

  const DOUBLE_START_TEXT := ".*((?<=([/]))|(?<=(\\A)))"

  lemma TokensText(pat: string, i: nat)
    requires i < |pat|
    ensures Text(TokensRe(Tokens(pat, i)))
      == Text(TokenRe(TokenAt(pat, i))) + Text(TokensRe(Tokens(pat, AfterToken(pat, i))))
  {
    assert Tokens(pat, i)[1..] == Tokens(pat, AfterToken(pat, i));
  }

  lemma WildcardTexts()
    ensures Text(TokenRe(TStar)) == "[^/]*" && Text(TokenRe(TQuestion)) == "[^/]?"
  {
    assert Text(NotSep) == "[^/]";
  }

  /** Looks for the end of a bracket expression. */
  method ScanClass(pat: string, i: nat) returns (j: nat)
    requires i <= |pat|
    ensures j == ClassClose(pat, i)
  {
    j := i;
    var n := |pat|;
    if j < n && pat[j] == '!' {
      j := j + 1;
    }
    if j < n && pat[j] == ']' {
      j := j + 1;
    }
    ghost var from := j;
    while j < n && pat[j] != ']'
      invariant from <= j <= n
      invariant FindFrom(pat, ']', from) == FindFrom(pat, ']', j)
    {
      j := j + 1;
    }
  }

  /** What the translation loop appends for the character at `i`, and where it goes on. */
  method TranslateToken(pat: string, i: nat) returns (piece: string, next: nat)
    requires i < |pat|
    ensures piece == Text(TokenRe(TokenAt(pat, i))) && next == AfterToken(pat, i)
  {
    WildcardTexts();
    var c := pat[i];
    next := i + 1;
    if c == '*' {
      piece := "[^/]*";
    } else if c == '?' {
      piece := "[^/]?";
    } else if c == '[' {
      var j := ScanClass(pat, next);
      if j >= |pat| {
        piece := "\\[";
      } else {
        var stuff := DoubleBackslashes(pat[next..j]);
        if stuff[0] == '!' {
          stuff := "^" + stuff[1..];
        } else if stuff[0] == '^' {
          stuff := "\\" + stuff;
        }
        next := j + 1;
        piece := "[" + stuff + "]";
      }
    } else {
      piece := Escape(c);
    }
  }

  method TranslateGlobPart(pat: string) returns (res: string)
    ensures res == Text(PartRe(pat))
  {
    if pat == "**" {
      DoubleStarTextIs();
      return DOUBLE_START_TEXT;
    }
    var i, n := 0, |pat|;
    res := "";
    while i < n
      invariant 0 <= i <= n
      invariant Text(TokensRe(Tokens(pat, 0))) == res + Text(TokensRe(Tokens(pat, i)))
      decreases n - i
    {
      TokensText(pat, i);
      var piece, next := TranslateToken(pat, i);
      res := res + piece;
      i := next;
    }
  }

  lemma BehindSepText()
    ensures Text(Behind(Group(Sep))) == "(?<=([/]))"
  {
    assert Text(Group(Sep)) == "([/])";
  }

  lemma BehindStartText()
    ensures Text(Behind(Group(Start))) == "(?<=(\\A))"
  {
    assert Text(Group(Start)) == "(\\A)";
  }

  lemma {:induction false} Parenthesized()
    ensures ".*" + ("(" + ("(?<=([/]))" + "|" + "(?<=(\\A))") + ")") == DOUBLE_START_TEXT
  {
  }

  lemma {:induction false} DoubleStarTextIs()
    ensures Text(DOUBLE_STAR) == DOUBLE_START_TEXT
  {
    var after, start := Behind(Group(Sep)), Behind(Group(Start));
    BehindSepText();
    BehindStartText();
    assert Text(Alt(after, start)) == Text(after) + "|" + Text(start);
    assert Text(Group(Alt(after, start))) == "(" + Text(Alt(after, start)) + ")";
    assert Text(Star(AnyChar)) == ".*";
    assert Text(DOUBLE_STAR) == Text(Star(AnyChar)) + Text(Group(Alt(after, start)));
    Parenthesized();
  }

  // ----- joining the parts -----

  const ANY_BELOW := Opt(Group(Cat(Opt(Sep), Star(AnyChar))))

  function LastRe(pat: string, subentries: bool): Re {
    if pat == "**" then Cat(Plus(AnyChar), ANY_BELOW)
    else if subentries then Cat(PartRe(pat), ANY_BELOW)
    else Cat(PartRe(pat), Opt(Sep))
  }

  function PartsRe(parts: seq<string>, subentries: bool): Re
    requires parts != []
  {
    if |parts| == 1 then LastRe(parts[0], subentries)
    else if parts[0] == "**" then Cat(DOUBLE_STAR, PartsRe(parts[1..], subentries))
    else Cat(PartRe(parts[0]), Cat(Sep, PartsRe(parts[1..], subentries)))
  }

  function GlobRe(parts: seq<string>, subentries: bool): Re
    requires parts != []
  {
    Cat(DotAll(PartsRe(parts, subentries)), End)
  }

  lemma {:induction false} TokensNeverStartWithDot(ts: seq<Token>)
    ensures Text(TokensRe(ts)) == "" || Text(TokensRe(ts))[0] != '.'
  {
    if ts != [] {
      var first, rest := Text(TokenRe(ts[0])), Text(TokensRe(ts[1..]));
      assert first != "" && (first + rest)[0] == first[0];
    }
  }

  /** Only the part `**` translates to the text that the joiner looks for. */
  lemma DoubleStarText(pat: string)
    ensures Text(PartRe(pat)) == DOUBLE_START_TEXT <==> pat == "**"
  {
    if pat == "**" {
      DoubleStarTextIs();
    } else {
      TokensNeverStartWithDot(Tokens(pat, 0));
    }
  }

  function PartTexts(parts: seq<string>): (ts: seq<string>)
    ensures |ts| == |parts|
  {
    seq(|parts|, i requires 0 <= i < |parts| => Text(PartRe(parts[i])))
  }

  lemma InnerText(parts: seq<string>, subentries: bool)
    requires |parts| > 1
    ensures Text(PartsRe(parts, subentries)) ==
      (if parts[0] == "**" then DOUBLE_START_TEXT else Text(PartRe(parts[0])) + "[/]")
      + Text(PartsRe(parts[1..], subentries))
  {
    var rest := PartsRe(parts[1..], subentries);
    if parts[0] == "**" {
      DoubleStarTextIs();
    } else {
      assert Text(Cat(Sep, rest)) == "[/]" + Text(rest);
    }
  }

  lemma LastText(pat: string, subentries: bool)
    ensures Text(LastRe(pat, subentries)) ==
      if pat == "**" then ".+" + "([/]?.*)?"
      else if subentries then Text(PartRe(pat)) + "([/]?.*)?"
      else Text(PartRe(pat)) + "[/]?"
  {
    assert Text(ANY_BELOW) == "([/]?.*)?" by {
      assert Text(Star(AnyChar)) == ".*" && Text(Opt(Sep)) == "[/]?";
      assert Text(Cat(Opt(Sep), Star(AnyChar))) == "[/]?.*";
    }
    assert Text(Plus(AnyChar)) == ".+";
    assert Text(Opt(Sep)) == "[/]?";
  }

  method JoinTranslated(translated: seq<string>, subentries: bool, ghost parts: seq<string>) returns (res: string)
    requires parts != [] && translated == PartTexts(parts)
    ensures res == Text(PartsRe(parts, subentries))
  {
    res := "";
    assert parts[0..] == parts;
    for n := 0 to |translated| - 1
      invariant Text(PartsRe(parts, subentries)) == res + Text(PartsRe(parts[n..], subentries))
    {
      var part := translated[n];
      DoubleStarText(parts[n]);
      InnerText(parts[n..], subentries);
      assert parts[n..][1..] == parts[n + 1..];
      var piece := part;
      if part != DOUBLE_START_TEXT {
        piece := part + "[/]";
      }
      Associative(res, piece, Text(PartsRe(parts[n + 1..], subentries)));
      res := res + piece;
    }
    var last := translated[|translated| - 1];
    DoubleStarText(parts[|parts| - 1]);
    LastText(parts[|parts| - 1], subentries);
    var tail;
    if last == DOUBLE_START_TEXT {
      last, tail := ".+", "([/]?.*)?";
    } else if subentries {
      tail := "([/]?.*)?";
    } else {
      tail := "[/]?";
    }
    Associative(res, last, tail);
    res := res + last;
    res := res + tail;
  }

  lemma GlobText(parts: seq<string>, subentries: bool)
    requires parts != []
    ensures Text(GlobRe(parts, subentries)) == "(?s:" + Text(PartsRe(parts, subentries)) + ")" + "\\Z"
  {
  }

  method TranslateParts(parts: seq<string>) returns (translated: seq<string>)
    ensures translated == PartTexts(parts)
  {
    translated := [];
    for n := 0 to |parts|
      invariant translated == PartTexts(parts)[..n]
    {
      var t := TranslateGlobPart(parts[n]);
      translated := translated + [t];
    }
  }

  method TranslateGlob(pat: string, subentries: bool) returns (res: string)
    ensures ExplodePath(pat) != []
    ensures res == Text(GlobRe(ExplodePath(pat), subentries))
  {
    var parts := ExplodePath(pat);
    ExplodeIsNotEmpty(pat);
    var translated := TranslateParts(parts);
    res := JoinTranslated(translated, subentries, parts);
    GlobText(parts, subentries);
    res := "(?s:" + res + ")" + "\\Z";
  }

  lemma {:induction false} ExplodeIsNotEmpty(p: string)
    ensures ExplodePath(p) != []
    decreases |p|
  {
  }
}
