/**
 Versions as text: the two patterns that read them, the printer, and the coercion of other text.
 Text is ASCII and does not end in a newline, which the end mark of a pattern would let pass.
 */
module VersionText {
  import opened Common
  import opened Decimals
  import opened Texts
  import opened Versions

  // ----- the patterns -----

  /** What the groups of a pattern hold. */
  datatype Groups = Groups(
    major: string, minor: Option<string>, patch: Option<string>, prerelease: Option<string>, build: Option<string>)

  /** `[0-9a-zA-Z.-]` */
  predicate InClass(c: char) {
    IsIdentifierChar(c) || c == '.'
  }

  predicate All(s: string, ok: char -> bool) {
    forall i :: 0 <= i < |s| ==> ok(s[i])
  }

  function Marked(mark: char, group: Option<string>): string {
    if group.None? then "" else [mark] + group.value
  }

  function NumberText(g: Groups): string {
    g.major + (Marked('.', g.minor) + Marked('.', g.patch))
  }

  function RestText(g: Groups): string {
    Marked('-', g.prerelease) + Marked('+', g.build)
  }

  function Spell(g: Groups): string {
    NumberText(g) + RestText(g)
  }

  predicate NumberGroups(g: Groups) {
    && IsNumber(g.major) && (g.minor.Some? ==> IsNumber(g.minor.value)) && (g.patch.Some? ==> IsNumber(g.patch.value))
    && (g.patch.Some? ==> g.minor.Some?)
  }

  /** Only the partial pattern lets an identifier part be empty. */
  predicate RestGroups(g: Groups, partial: bool) {
    && (g.prerelease.Some? ==> All(g.prerelease.value, InClass) && (partial || g.prerelease.value != ""))
    && (g.build.Some? ==> All(g.build.value, InClass) && (partial || g.build.value != ""))
  }

  /** Only the partial pattern lets minor and patch be absent. */
  predicate IsMatch(text: string, g: Groups, partial: bool) {
    text == Spell(g) && NumberGroups(g) && RestGroups(g, partial) && (partial || g.patch.Some?)
  }

  // ----- matching -----

  /** How many characters at the start are in a class. */
  function Span(s: string, ok: char -> bool): (n: nat)
    ensures n <= |s| && All(s[..n], ok) && (n < |s| ==> !ok(s[n]))
    decreases |s|
  {
    if s == "" || !ok(s[0]) then 0
    else
      var n := Span(s[1..], ok);
      assert s[..n + 1] == [s[0]] + s[1..][..n];
      n + 1
  }

  lemma {:induction false} SpanOf(a: string, rest: string, ok: char -> bool)
    requires All(a, ok) && (rest == "" || !ok(rest[0]))
    ensures Span(a + rest, ok) == |a| && (a + rest)[..|a|] == a && (a + rest)[|a|..] == rest
    decreases |a|
  {
    if a == "" {
      assert a + rest == rest;
    } else {
      assert (a + rest)[1..] == a[1..] + rest;
      SpanOf(a[1..], rest, ok);
    }
  }

  datatype Taken = Taken(group: Option<string>, rest: string)

  /** An optional group: a mark and then at least one character of a class, or any number if it may be empty. */
  function Take(s: string, mark: char, ok: char -> bool, mayBeEmpty: bool): (t: Taken)
    ensures s == Marked(mark, t.group) + t.rest
    ensures t.group.Some? ==> All(t.group.value, ok) && (mayBeEmpty || t.group.value != "")
  {
    if s == "" || s[0] != mark then Taken(None, s)
    else
      var n := Span(s[1..], ok);
      if n == 0 && !mayBeEmpty then Taken(None, s) else Taken(Some(s[1..][..n]), s[1..][n..])
  }

  /** A group that is there is taken whole, up to what cannot continue it. */
  lemma {:induction false} TakeFinds(group: Option<string>, rest: string, mark: char, ok: char -> bool, mayBeEmpty: bool)
    requires group.Some? ==> All(group.value, ok) && (mayBeEmpty || group.value != "") && (rest == "" || !ok(rest[0]))
    requires group.None? ==> rest == "" || rest[0] != mark
    ensures Take(Marked(mark, group) + rest, mark, ok, mayBeEmpty) == Taken(group, rest)
  {
    var s := Marked(mark, group) + rest;
    if group.None? {
      assert s == rest;
    } else {
      assert s[1..] == group.value + rest;
      SpanOf(group.value, rest, ok);
    }
  }

  /** The numbers at the start, and what follows them. */
  function TakeNumbers(text: string): (Groups, string) {
    var n := Span(text, IsDigit);
    var minor := Take(text[n..], '.', IsDigit, false);
    var patch := if minor.group.Some? then Take(minor.rest, '.', IsDigit, false) else Taken(None, minor.rest);
    (Groups(text[..n], minor.group, patch.group, None, None), patch.rest)
  }

  function Match(text: string, partial: bool): Option<Groups> {
    var (numbers, rest) := TakeNumbers(text);
    var prerelease := Take(rest, '-', InClass, partial);
    var build := Take(prerelease.rest, '+', InClass, partial);
    if numbers.major == "" || (!partial && numbers.patch.None?) || build.rest != "" then None
    else Some(numbers.(prerelease := prerelease.group, build := build.group))
  }

  lemma Regroup(text: string, a: string, b: string, c: string, d: string, afterA: string, afterB: string)
    requires text == a + afterA && afterA == b + afterB && afterB == c + d
    ensures text == a + (b + c) + d
  {
  }

  lemma DigitsAll(s: string)
    ensures All(s, IsDigit) <==> AllDigits(s)
  {
  }

  lemma {:induction false} TakeNumbersGroups(text: string)
    ensures var g := TakeNumbers(text).0; g.major != "" ==> NumberGroups(g)
  {
    var g := TakeNumbers(text).0;
    DigitsAll(g.major);
    if g.minor.Some? { DigitsAll(g.minor.value); }
    if g.patch.Some? { DigitsAll(g.patch.value); }
  }

  lemma {:induction false} TakeNumbersText(text: string)
    ensures var (g, rest) := TakeNumbers(text); text == NumberText(g) + rest
  {
    var n := Span(text, IsDigit);
    var minor := Take(text[n..], '.', IsDigit, false);
    var (g, rest) := TakeNumbers(text);
    if minor.group.None? {
      assert Marked('.', g.patch) + rest == minor.rest;
    }
    Regroup(text, g.major, Marked('.', g.minor), Marked('.', g.patch), rest, text[n..], minor.rest);
  }

  lemma {:induction false} TakeNumbersSound(text: string)
    ensures var (g, rest) := TakeNumbers(text);
      text == NumberText(g) + rest && (g.major != "" ==> NumberGroups(g))
  {
    TakeNumbersText(text);
    TakeNumbersGroups(text);
  }

  /** Nothing that could continue a number. */
  predicate EndsNumbers(rest: string) {
    rest == "" || (!IsDigit(rest[0]) && rest[0] != '.')
  }

  lemma {:induction false} TakeNumbersFinds(g: Groups, rest: string)
    requires NumberGroups(g) && EndsNumbers(rest)
    ensures TakeNumbers(NumberText(g) + rest) == (g.(prerelease := None, build := None), rest)
  {
    var patchText := Marked('.', g.patch) + rest;
    var minorText := Marked('.', g.minor) + patchText;
    assert NumberText(g) + rest == g.major + minorText;
    SpanOf(g.major, minorText, IsDigit);
    TakeFinds(g.minor, patchText, '.', IsDigit, false);
    TakeFinds(g.patch, rest, '.', IsDigit, false);
  }

  lemma {:induction false} MatchSound(text: string, g: Groups, partial: bool)
    requires Match(text, partial) == Some(g)
    ensures IsMatch(text, g, partial)
  {
    TakeNumbersSound(text);
    var (numbers, rest) := TakeNumbers(text);
    assert NumberText(g) == NumberText(numbers);
    var prerelease := Take(rest, '-', InClass, partial);
    var build := Take(prerelease.rest, '+', InClass, partial);
    assert prerelease.rest == Marked('+', g.build) + "" == Marked('+', g.build);
    assert rest == RestText(g);
  }

  lemma {:induction false} TakeRestFinds(g: Groups, partial: bool)
    requires RestGroups(g, partial)
    ensures Take(RestText(g), '-', InClass, partial) == Taken(g.prerelease, Marked('+', g.build))
    ensures Take(Marked('+', g.build), '+', InClass, partial) == Taken(g.build, "")
    ensures EndsNumbers(RestText(g))
  {
    var buildText := Marked('+', g.build);
    TakeFinds(g.prerelease, buildText, '-', InClass, partial);
    assert buildText + "" == buildText;
    TakeFinds(g.build, "", '+', InClass, partial);
  }

  lemma {:induction false} MatchComplete(text: string, g: Groups, partial: bool)
    requires IsMatch(text, g, partial)
    ensures Match(text, partial) == Some(g)
  {
    TakeRestFinds(g, partial);
    TakeNumbersFinds(g, RestText(g));
  }

  /** A pattern matches a text in at most one way, and that is the one found. */
  lemma {:induction false} MatchIff(text: string, g: Groups, partial: bool)
    ensures Match(text, partial) == Some(g) <==> IsMatch(text, g, partial)
  {
    if Match(text, partial) == Some(g) { MatchSound(text, g, partial); }
    if IsMatch(text, g, partial) { MatchComplete(text, g, partial); }
  }

  // ----- parsing -----

  /** What `_validate_identifiers` asks; which characters there are is the pattern's concern. */
  predicate Acceptable(items: seq<string>, allowLeadingZeroes: bool) {
    forall i :: 0 <= i < |items| ==> items[i] != "" && (HasLeadingZero(items[i]) ==> allowLeadingZeroes)
  }

  function ToNumber(group: Option<string>): Option<nat>
    requires group.Some? ==> AllDigits(group.value)
  {
    if group.None? then None else Some(Number(group.value))
  }

  predicate LeadingZero(group: Option<string>) {
    group.Some? && HasLeadingZero(group.value)
  }

  /** The identifiers of a group, none for an empty or absent one. */
  function Items(group: Option<string>): seq<string> {
    if group.None? || group.value == "" then [] else Split(group.value, '.')
  }

  predicate Accepts(g: Groups) {
    && !HasLeadingZero(g.major) && !LeadingZero(g.minor) && !LeadingZero(g.patch)
    && Acceptable(Items(g.prerelease), false) && Acceptable(Items(g.build), true)
  }

  /** The version the groups stand for; a partial one without identifiers lacks them. */
  function VersionOf(g: Groups, partial: bool): Version
    requires NumberGroups(g)
  {
    Version(Number(g.major), ToNumber(g.minor), ToNumber(g.patch),
            if partial && g.prerelease.None? && g.build.None? then None else Some(Items(g.prerelease)),
            if partial && g.build.None? then None else Some(Items(g.build)),
            partial)
  }

  lemma {:induction false} MatchNumbers(text: string, partial: bool)
    ensures Match(text, partial).Some? ==> NumberGroups(Match(text, partial).value)
  {
    if Match(text, partial).Some? { MatchSound(text, Match(text, partial).value, partial); }
  }

  function ParseOf(text: string, partial: bool): Option<Version> {
    MatchNumbers(text, partial);
    match Match(text, partial)
    case None => None
    case Some(g) => if Accepts(g) then Some(VersionOf(g, partial)) else None
  }

  method ValidateIdentifiers(identifiers: seq<string>, allowLeadingZeroes: bool) returns (ok: bool)
    ensures ok <==> Acceptable(identifiers, allowLeadingZeroes)
  {
    for i := 0 to |identifiers|
      invariant Acceptable(identifiers[..i], allowLeadingZeroes)
    {
      var item := identifiers[i];
      if item == "" { return false; }
      if item[0] == '0' && AllDigits(item) && item != "0" && !allowLeadingZeroes { return false; }
    }
    assert identifiers[..|identifiers|] == identifiers;
    return true;
  }

  /** Nothing is returned where the source raises. */
  method Parse(text: string, partial: bool) returns (r: Option<Version>)
    ensures r == ParseOf(text, partial)
  {
    if text == "" { return None; }
    var m := Match(text, partial);
    MatchNumbers(text, partial);
    if m.None? { return None; }
    r := ParseGroups(m.value, partial);
  }

  method ParseGroups(g: Groups, partial: bool) returns (r: Option<Version>)
    requires NumberGroups(g)
    ensures r == if Accepts(g) then Some(VersionOf(g, partial)) else None
  {
    if HasLeadingZero(g.major) { return None; }
    if LeadingZero(g.minor) { return None; }
    if LeadingZero(g.patch) { return None; }
    var major, minor, patch := Number(g.major), ToNumber(g.minor), ToNumber(g.patch);
    var prerelease, build: Option<seq<string>>;
    if g.prerelease.None? {
      if partial && g.build.None? {
        return Some(Version(major, minor, patch, None, None, partial));
      }
      prerelease := Some([]);
    } else if g.prerelease.value == "" {
      prerelease := Some([]);
    } else {
      prerelease := Some(Split(g.prerelease.value, '.'));
      var ok := ValidateIdentifiers(prerelease.value, false);
      if !ok { return None; }
    }
    if g.build.None? {
      build := if partial then None else Some([]);
    } else if g.build.value == "" {
      build := Some([]);
    } else {
      build := Some(Split(g.build.value, '.'));
      var ok := ValidateIdentifiers(build.value, true);
      if !ok { return None; }
    }
    return Some(Version(major, minor, patch, prerelease, build, partial));
  }

  // ----- printing -----

  function FromNumber(n: Option<nat>): Option<string> {
    if n.None? then None else Some(Numeral(n.value))
  }

  /** The groups a version prints; a partial one may print a mark with nothing after it. */
  function GroupsOf(v: Version): Groups {
    Groups(Numeral(v.major), FromNumber(v.minor), FromNumber(v.patch),
           if v.prerelease.Some? && (v.prerelease.value != [] || (v.partial && v.build.None?))
           then Some(Join(v.prerelease.value, '.')) else None,
           if v.build.Some? && (v.build.value != [] || v.partial) then Some(Join(v.build.value, '.')) else None)
  }

  lemma Assemble(a: string, b: string, c: string, d: string, e: string)
    ensures a + b + c + d + e == a + (b + c) + (d + e)
  {
  }

  /** `'%s.%s' % (text, value)`, with some mark in between. */
  method Append(text: string, mark: char, value: string) returns (longer: string)
    ensures longer == text + Marked(mark, Some(value))
  {
    longer := text + [mark] + value;
  }

  lemma NothingAdded(text: string, mark: char)
    ensures text + Marked(mark, None) == text
  {
  }

  method StrNumbers(v: Version) returns (version: string)
    ensures version == Numeral(v.major) + Marked('.', FromNumber(v.minor)) + Marked('.', FromNumber(v.patch))
  {
    version := Numeral(v.major);
    if v.minor.Some? {
      version := Append(version, '.', Numeral(v.minor.value));
    } else {
      NothingAdded(version, '.');
    }
    if v.patch.Some? {
      version := Append(version, '.', Numeral(v.patch.value));
    } else {
      NothingAdded(version, '.');
    }
  }

  method Str(v: Version) returns (version: string)
    ensures version == Spell(GroupsOf(v))
  {
    ghost var g := GroupsOf(v);
    version := StrNumbers(v);
    if v.prerelease.Some? && (v.prerelease.value != [] || (v.partial && v.prerelease.value == [] && v.build.None?)) {
      version := Append(version, '-', Join(v.prerelease.value, '.'));
    } else {
      NothingAdded(version, '-');
    }
    if v.build.Some? && (v.build.value != [] || (v.partial && v.build.value == [])) {
      version := Append(version, '+', Join(v.build.value, '.'));
    } else {
      NothingAdded(version, '+');
    }
    Assemble(g.major, Marked('.', g.minor), Marked('.', g.patch), Marked('-', g.prerelease), Marked('+', g.build));
  }
}
