/** Making a version of arbitrary text: numbers are filled up, the rest is cleaned and divided. */
module VersionCoercion {
  import opened Common
  import opened Decimals
  import opened Texts
  import opened Versions
  import opened VersionText
  import opened VersionRoundTrips

  function LeftStrip(s: string): (r: string)
    ensures AllDigits(s) ==> AllDigits(r) && Number(r) == Number(s)
    ensures r == "" || r[0] != '0'
    decreases |s|
  {
    if s == "" || s[0] != '0' then s
    else
      ZeroInFront(s);
      LeftStrip(s[1..])
  }

  lemma {:induction false} ZeroInFront(s: string)
    requires s != "" && s[0] == '0'
    ensures AllDigits(s) ==> AllDigits(s[1..]) && Number(s[1..]) == Number(s)
    decreases |s|
  {
    if AllDigits(s) && |s| > 1 {
      var front := s[..|s| - 1];
      ZeroInFront(front);
      assert s[1..][..|s| - 2] == front[1..];
    }
  }

  /** `part.lstrip('0') or '0'` */
  function Stripped(part: string): (r: string)
    ensures IsNumber(part) ==> Canonical(r) && Number(r) == Number(part)
  {
    var r := LeftStrip(part);
    assert Number("0") == 0;
    if r == "" then "0" else r
  }

  function StripAll(parts: seq<string>): (r: seq<string>)
    ensures |r| == |parts| && forall i :: 0 <= i < |parts| ==> r[i] == Stripped(parts[i])
  {
    seq(|parts|, i requires 0 <= i < |parts| => Stripped(parts[i]))
  }

  /** `re.sub(r'[^a-zA-Z0-9+.-]', '-', rest)` */
  function Clean(rest: string): (r: string)
    ensures |r| == |rest|
    ensures forall i :: 0 <= i < |rest| ==> r[i] == if InClass(rest[i]) || rest[i] == '+' then rest[i] else '-'
  {
    seq(|rest|, i requires 0 <= i < |rest| => if InClass(rest[i]) || rest[i] == '+' then rest[i] else '-')
  }

  function PlusToDot(build: string): (r: string)
    ensures |r| == |build|
    ensures forall i :: 0 <= i < |build| ==> r[i] == if build[i] == '+' then '.' else build[i]
  {
    seq(|build|, i requires 0 <= i < |build| => if build[i] == '+' then '.' else build[i])
  }

  predicate NoPlus(c: char) {
    c != '+'
  }

  /** The identifier parts of a cleaned rest: prerelease and build. */
  function Divide(rest: string): (string, string)
    requires rest != ""
  {
    if rest[0] == '+' || rest[0] == '.' then ("", PlusToDot(rest[1..]))
    else
      var body := if rest[0] == '-' then rest[1..] else rest;
      var n := Span(body, NoPlus);
      (body[..n], if n == |body| then "" else PlusToDot(body[n + 1..]))
  }

  function Present(part: string): Option<string> {
    if part == "" then None else Some(part)
  }

  /** The numbers that are there, and zeroes for those that are not unless the version may be partial. */
  function Padded(g: Groups, partial: bool): (parts: seq<string>)
    ensures 1 <= |parts| <= 3
  {
    if g.minor.None? then (if partial then [g.major] else [g.major, "0", "0"])
    else if g.patch.None? then (if partial then [g.major, g.minor.value] else [g.major, g.minor.value, "0"])
    else [g.major, g.minor.value, g.patch.value]
  }

  /** The text handed on to the parser. */
  function CoercedText(text: string, partial: bool): string {
    var (g, rest) := TakeNumbers(text);
    var version := Join(StripAll(Padded(g, partial)), '.');
    if rest == "" then version
    else
      var (prerelease, build) := Divide(Clean(rest));
      version + Marked('-', Present(prerelease)) + Marked('+', Present(build))
  }

  function CoerceOf(text: string, partial: bool): Option<Version> {
    if TakeNumbers(text).0.major == "" then None else ParseOf(CoercedText(text, partial), partial)
  }

  // ----- the steps of the source -----

  lemma {:induction false} JoinCounts(parts: seq<string>)
    requires parts != [] && forall i :: 0 <= i < |parts| ==> '.' !in parts[i]
    ensures Count(Join(parts, '.'), '.') == |parts| - 1
    decreases |parts|
  {
    CountIn(parts[0], '.');
    if |parts| > 1 {
      JoinCounts(parts[1..]);
      CountAppend(parts[0] + ['.'], Join(parts[1..], '.'), '.');
      CountAppend(parts[0], ['.'], '.');
    }
  }

  lemma NumberHasNoDot(s: string)
    requires AllDigits(s)
    ensures '.' !in s
  {
  }

  /** The numbers found, as parts. */
  function Found(g: Groups): (parts: seq<string>)
    requires NumberGroups(g)
    ensures 1 <= |parts| <= 3 && forall i :: 0 <= i < |parts| ==> IsNumber(parts[i])
  {
    [g.major] + (if g.minor.None? then [] else [g.minor.value]) + (if g.patch.None? then [] else [g.patch.value])
  }

  lemma {:induction false} FoundJoined(g: Groups)
    requires NumberGroups(g)
    ensures Join(Found(g), '.') == NumberText(g)
  {
    if g.minor.None? {
      assert Found(g) == [g.major];
    } else if g.patch.None? {
      assert Found(g) == [g.major] + [g.minor.value];
      JoinSnoc([g.major], g.minor.value, '.');
    } else {
      var two := [g.major] + [g.minor.value];
      assert Found(g) == two + [g.patch.value];
      JoinSnoc([g.major], g.minor.value, '.');
      JoinSnoc(two, g.patch.value, '.');
    }
  }

  /** The numbers found and some zeroes, joined. */
  ghost predicate Pads(version: string, parts: seq<string>, g: Groups)
    requires NumberGroups(g)
  {
    && |Found(g)| <= |parts| <= 3 && version == Join(parts, '.')
    && (forall i :: 0 <= i < |parts| ==> IsNumber(parts[i]) && parts[i] == if i < |Found(g)| then Found(g)[i] else "0")
  }

  lemma {:induction false} PadsCount(version: string, parts: seq<string>, g: Groups)
    requires NumberGroups(g) && Pads(version, parts, g)
    ensures Count(version, '.') == |parts| - 1
  {
    forall i | 0 <= i < |parts| ensures '.' !in parts[i] { NumberHasNoDot(parts[i]); }
    JoinCounts(parts);
  }

  lemma {:induction false} PadsMore(version: string, parts: seq<string>, g: Groups)
    requires NumberGroups(g) && Pads(version, parts, g) && |parts| < 3
    ensures Pads(version + ".0", parts + ["0"], g)
  {
    JoinSnoc(parts, "0", '.');
    assert version + ".0" == version + ['.'] + "0";
  }

  lemma {:induction false} PadsDone(version: string, parts: seq<string>, g: Groups)
    requires NumberGroups(g) && Pads(version, parts, g) && |parts| == 3
    ensures version == Join(Padded(g, false), '.')
  {
    assert parts == Padded(g, false);
  }

  /** Adds `.0` until there are three numbers. */
  method PadNumbers(text: string, ghost g: Groups) returns (version: string)
    requires NumberGroups(g) && text == NumberText(g)
    ensures version == Join(Padded(g, false), '.')
  {
    version := text;
    ghost var parts := Found(g);
    FoundJoined(g);
    PadsCount(version, parts, g);
    while Count(version, '.') < 2
      invariant Pads(version, parts, g) && Count(version, '.') == |parts| - 1
      decreases 3 - |parts|
    {
      PadsMore(version, parts, g);
      version := version + ".0";
      parts := parts + ["0"];
      PadsCount(version, parts, g);
    }
    PadsDone(version, parts, g);
  }

  lemma {:induction false} PaddedNumbers(g: Groups, partial: bool)
    requires NumberGroups(g)
    ensures forall i :: 0 <= i < |Padded(g, partial)| ==> IsNumber(Padded(g, partial)[i]) && '.' !in Padded(g, partial)[i]
    ensures partial ==> Padded(g, partial) == Found(g)
  {
  }

  /** Splits at the dots, strips each part and joins again. */
  method StripZeroes(text: string, ghost parts: seq<string>) returns (version: string)
    requires text == Join(parts, '.') && parts != [] && forall i :: 0 <= i < |parts| ==> '.' !in parts[i]
    ensures version == Join(StripAll(parts), '.')
  {
    SplitJoin(parts, '.');
    var split := Split(text, '.');
    var stripped := [];
    for i := 0 to |split|
      invariant stripped == StripAll(split[..i])
    {
      stripped := stripped + [Stripped(split[i])];
    }
    assert split[..|split|] == split;
    version := Join(stripped, '.');
  }

  method CoerceNumbers(text: string, g: Groups, partial: bool) returns (version: string)
    requires NumberGroups(g) && text == NumberText(g)
    ensures version == Join(StripAll(Padded(g, partial)), '.')
  {
    version := text;
    PaddedNumbers(g, partial);
    if !partial {
      version := PadNumbers(version, g);
    } else {
      FoundJoined(g);
    }
    version := StripZeroes(version, Padded(g, partial));
  }

  method AddPart(text: string, mark: char, part: string) returns (version: string)
    ensures version == text + Marked(mark, Present(part))
  {
    version := text;
    if part != "" {
      version := Append(version, mark, part);
    } else {
      NothingAdded(version, mark);
    }
  }

  method Coerce(text: string, partial: bool) returns (r: Option<Version>)
    ensures r == CoerceOf(text, partial)
  {
    var (g, rest) := TakeNumbers(text);
    TakeNumbersSound(text);
    if g.major == "" { return None; }
    var end := |text| - |rest|;
    assert text[..end] == NumberText(g);
    var version := CoerceNumbers(text[..end], g, partial);
    if end == |text| {
      assert rest == "";
      r := Parse(version, partial);
      return;
    }
    var prerelease, build := DivideRest(Clean(rest));
    version := AddPart(version, '-', prerelease);
    version := AddPart(version, '+', build);
    r := Parse(version, partial);
  }

  /** The first `+` divides; what is before it is a prerelease unless the rest starts with `+` or a dot. */
  method DivideRest(rest: string) returns (prerelease: string, build: string)
    requires rest != ""
    ensures (prerelease, build) == Divide(rest)
  {
    if rest[0] == '+' {
      prerelease, build := "", rest[1..];
    } else if rest[0] == '.' {
      prerelease, build := "", rest[1..];
    } else {
      var body := if rest[0] == '-' then rest[1..] else rest;
      var n := Span(body, NoPlus);
      if n < |body| {
        prerelease, build := body[..n], body[n + 1..];
      } else {
        prerelease, build := body, "";
        assert body[..n] == body && PlusToDot("") == "";
      }
    }
    build := PlusToDot(build);
  }

  // ----- what coercion gives -----

  lemma {:induction false} DivideInClass(rest: string)
    requires rest != "" && forall i :: 0 <= i < |rest| ==> InClass(rest[i]) || rest[i] == '+'
    ensures All(Divide(rest).0, InClass) && All(Divide(rest).1, InClass)
  {
    if rest[0] != '+' && rest[0] != '.' {
      var body := if rest[0] == '-' then rest[1..] else rest;
      var n := Span(body, NoPlus);
      assert forall i :: 0 <= i < |body| ==> InClass(body[i]) || body[i] == '+';
      assert All(body[..n], NoPlus);
      forall i | 0 <= i < n ensures InClass(body[..n][i]) {
        assert NoPlus(body[..n][i]);
      }
    }
  }

  /** The identifier parts coercion finds in a text. */
  function PartsOf(text: string): (string, string) {
    var rest := TakeNumbers(text).1;
    if rest == "" then ("", "") else Divide(Clean(rest))
  }

  /** A number that is there, and zero for one that is not unless the version may be partial. */
  function Filled(group: Option<string>, partial: bool): Option<nat>
    requires group.Some? ==> AllDigits(group.value)
  {
    if group.Some? then Some(Number(group.value)) else if partial then None else Some(0)
  }

  function StrippedOrZero(group: Option<string>, partial: bool): Option<string> {
    if group.Some? then Some(Stripped(group.value)) else if partial then None else Some(Stripped("0"))
  }

  /** The groups of the text handed on. */
  function CoercedGroups(g: Groups, prerelease: string, build: string, partial: bool): Groups {
    Groups(Stripped(g.major), StrippedOrZero(g.minor, partial), StrippedOrZero(g.patch, partial),
           Present(prerelease), Present(build))
  }

  lemma {:induction false} StrippedNumber(group: Option<string>, partial: bool)
    requires group.Some? ==> IsNumber(group.value)
    ensures var r := StrippedOrZero(group, partial);
      (r.Some? ==> Canonical(r.value) && IsNumber(r.value)) && ToNumber(r) == Filled(group, partial)
  {
    assert Number("0") == 0 && IsNumber("0");
  }

  lemma {:induction false} CoercedNumbers(g: Groups, prerelease: string, build: string, partial: bool)
    requires NumberGroups(g)
    ensures NumberGroups(CoercedGroups(g, prerelease, build, partial))
    ensures StripAll(Padded(g, partial)) == Found(CoercedGroups(g, prerelease, build, partial))
  {
    StrippedNumber(g.minor, partial);
    StrippedNumber(g.patch, partial);
  }

  lemma {:induction false} CoercedSpells(text: string, partial: bool)
    requires NumberGroups(TakeNumbers(text).0)
    ensures CoercedText(text, partial) == Spell(CoercedGroups(TakeNumbers(text).0, PartsOf(text).0, PartsOf(text).1, partial))
  {
    var (g, rest) := TakeNumbers(text);
    var h := CoercedGroups(g, PartsOf(text).0, PartsOf(text).1, partial);
    CoercedNumbers(g, PartsOf(text).0, PartsOf(text).1, partial);
    FoundJoined(h);
    if rest == "" {
      assert RestText(h) == "";
    } else {
      Associative(NumberText(h), Marked('-', h.prerelease), Marked('+', h.build));
    }
  }

  lemma {:induction false} PartsInClass(text: string)
    ensures All(PartsOf(text).0, InClass) && All(PartsOf(text).1, InClass)
  {
    var rest := TakeNumbers(text).1;
    if rest != "" { DivideInClass(Clean(rest)); }
  }

  /** The version coercion makes of the numbers and identifier parts it finds. */
  function CoercedVersion(g: Groups, prerelease: string, build: string, partial: bool): Version
    requires NumberGroups(g)
  {
    Version(Number(g.major), Filled(g.minor, partial), Filled(g.patch, partial),
            if partial && prerelease == "" && build == "" then None else Some(Items(Some(prerelease))),
            if partial && build == "" then None else Some(Items(Some(build))),
            partial)
  }

  lemma {:induction false} CoercedAccepted(g: Groups, prerelease: string, build: string, partial: bool)
    requires NumberGroups(g)
    ensures var h := CoercedGroups(g, prerelease, build, partial);
      && NumberGroups(h)
      && (Accepts(h) <==> Acceptable(Items(Some(prerelease)), false) && Acceptable(Items(Some(build)), true))
      && VersionOf(h, partial) == CoercedVersion(g, prerelease, build, partial)
  {
    var h := CoercedGroups(g, prerelease, build, partial);
    CoercedNumbers(g, prerelease, build, partial);
    StrippedNumber(g.minor, partial);
    StrippedNumber(g.patch, partial);
    CanonicalIff(h.major);
    if h.minor.Some? { CanonicalIff(h.minor.value); }
    if h.patch.Some? { CanonicalIff(h.patch.value); }
  }

  /**
   Coercion fails exactly on text without a number in front and on identifier parts the parser
   refuses; else the version has the numbers found, zeroes for the others unless it may be
   partial, and those parts.
   */
  lemma {:induction false} CoerceMeans(text: string, partial: bool)
    ensures var g, prerelease, build := TakeNumbers(text).0, PartsOf(text).0, PartsOf(text).1;
      CoerceOf(text, partial) ==
        if g.major != "" && NumberGroups(g) && Acceptable(Items(Some(prerelease)), false) && Acceptable(Items(Some(build)), true)
        then Some(CoercedVersion(g, prerelease, build, partial))
        else None
  {
    TakeNumbersSound(text);
    var g, prerelease, build := TakeNumbers(text).0, PartsOf(text).0, PartsOf(text).1;
    if g.major != "" {
      var h := CoercedGroups(g, prerelease, build, partial);
      CoercedAccepted(g, prerelease, build, partial);
      CoercedSpells(text, partial);
      PartsInClass(text);
      ParseMatched(CoercedText(text, partial), h, partial);
    }
  }

  // ----- version text is left alone -----

  function OrEmpty(group: Option<string>): string {
    if group.None? then "" else group.value
  }

  lemma {:induction false} CleanKeeps(rest: string)
    requires forall i :: 0 <= i < |rest| ==> InClass(rest[i]) || rest[i] == '+'
    ensures Clean(rest) == rest
  {
  }

  lemma {:induction false} PlusToDotKeeps(build: string)
    requires All(build, InClass)
    ensures PlusToDot(build) == build
  {
  }

  lemma {:induction false} RestInClass(g: Groups)
    requires RestGroups(g, false)
    ensures forall i :: 0 <= i < |RestText(g)| ==> InClass(RestText(g)[i]) || RestText(g)[i] == '+'
  {
    var p, b := Marked('-', g.prerelease), Marked('+', g.build);
    assert forall i :: 0 <= i < |p| ==> InClass(p[i]);
    assert forall i :: 0 <= i < |b| ==> InClass(b[i]) || b[i] == '+';
  }

  lemma {:induction false} DivideAtPlus(p: string, build: Option<string>)
    requires All(p, InClass) && (build.Some? ==> All(build.value, InClass))
    ensures Divide(['-'] + (p + Marked('+', build))) == (p, OrEmpty(build))
  {
    var b := Marked('+', build);
    var rest := ['-'] + (p + b);
    assert rest[1..] == p + b;
    assert All(p, NoPlus) by {
      assert forall i :: 0 <= i < |p| ==> InClass(p[i]);
    }
    SpanOf(p, b, NoPlus);
    if build.Some? {
      assert (p + b)[|p| + 1..] == build.value;
      PlusToDotKeeps(build.value);
    }
  }

  lemma {:induction false} DivideBuild(build: string)
    requires All(build, InClass)
    ensures Divide(['+'] + build) == ("", build)
  {
    assert (['+'] + build)[1..] == build;
    PlusToDotKeeps(build);
  }

  /** The parts of printed text are divided where they were put together. */
  lemma {:induction false} DividePrinted(g: Groups)
    requires RestGroups(g, false) && RestText(g) != ""
    ensures Divide(Clean(RestText(g))) == (OrEmpty(g.prerelease), OrEmpty(g.build))
  {
    RestInClass(g);
    CleanKeeps(RestText(g));
    if g.prerelease.None? {
      assert RestText(g) == Marked('+', g.build);
      DivideBuild(g.build.value);
    } else {
      Associative(['-'], g.prerelease.value, Marked('+', g.build));
      DivideAtPlus(g.prerelease.value, g.build);
    }
  }

  /** Coercing what a valid version prints gives that version. */
  lemma {:induction false} CoercePrinted(v: Version)
    requires Full(v)
    ensures CoerceOf(Spell(GroupsOf(v)), false) == Some(v)
  {
    var g := GroupsOf(v);
    FullGroups(v);
    FullAccepted(v);
    FullVersionOf(v);
    TakeRestFinds(g, false);
    TakeNumbersFinds(g, RestText(g));
    CoerceMeans(Spell(g), false);
    if RestText(g) != "" { DividePrinted(g); }
    assert PartsOf(Spell(g)) == (OrEmpty(g.prerelease), OrEmpty(g.build));
    assert Items(Some(OrEmpty(g.prerelease))) == Items(g.prerelease);
    assert Items(Some(OrEmpty(g.build))) == Items(g.build);
  }

  /** Coercion agrees with the parser wherever the parser accepts. */
  lemma {:induction false} CoerceParsed(text: string)
    requires ParseOf(text, false).Some?
    ensures CoerceOf(text, false) == ParseOf(text, false)
  {
    ParsedIsFull(text);
    ParsedPrints(text);
    CoercePrinted(ParseOf(text, false).value);
  }

  /** What coercion gives is a valid full version, and coercing that again changes nothing. */
  lemma {:induction false} CoerceSettles(text: string)
    requires CoerceOf(text, false).Some?
    ensures Full(CoerceOf(text, false).value)
    ensures CoerceOf(Spell(GroupsOf(CoerceOf(text, false).value)), false) == CoerceOf(text, false)
  {
    ParsedIsFull(CoercedText(text, false));
    CoercePrinted(CoerceOf(text, false).value);
  }
}
