/** What coercion makes of the text behind the numbers, character by character. */
module CoercedParts {
  import opened Common
  import opened Decimals
  import opened Texts
  import opened Versions
  import opened VersionText
  import opened VersionRoundTrips
  import opened VersionCoercion

  /** Every character that cannot stand in a version is a hyphen, and a `+` is a dot. */
  function Softened(s: string): (r: string)
    ensures |r| == |s|
    ensures forall i :: 0 <= i < |s| ==> (s[i] == '+' ==> r[i] == '.')
    ensures forall i :: 0 <= i < |s| ==> (IsIdentifierChar(s[i]) || s[i] == '.' ==> r[i] == s[i])
    ensures forall i :: 0 <= i < |s| ==> (!IsIdentifierChar(s[i]) && s[i] != '.' && s[i] != '+' ==> r[i] == '-')
  {
    seq(|s|, i requires 0 <= i < |s| =>
      if s[i] == '+' then '.' else if IsIdentifierChar(s[i]) || s[i] == '.' then s[i] else '-')
  }

  /** Whether the rest holds build data only, and where its identifiers begin. */
  predicate BuildOnly(rest: string) {
    rest != "" && (rest[0] == '.' || rest[0] == '+')
  }

  function Begin(rest: string): (n: nat)
    requires rest != ""
    ensures n <= |rest|
  {
    if IsIdentifierChar(rest[0]) && rest[0] != '-' then 0 else 1
  }

  predicate FirstPlus(rest: string, from: nat, k: nat) {
    from <= k <= |rest| && (forall i :: from <= i < k ==> rest[i] != '+') && (k < |rest| ==> rest[k] == '+')
  }

  lemma {:induction false} SoftenedBuild(s: string)
    ensures PlusToDot(Clean(s)) == Softened(s)
  {
  }

  lemma {:induction false} SoftenedPrerelease(s: string)
    requires '+' !in s
    ensures Clean(s) == Softened(s)
  {
  }

  lemma {:induction false} CleanCut(s: string, i: nat, j: nat)
    requires i <= j <= |s|
    ensures Clean(s)[i..j] == Clean(s[i..j])
  {
  }

  lemma {:induction false} SpanIs(s: string, ok: char -> bool, n: nat)
    requires n <= |s| && All(s[..n], ok) && (n < |s| ==> !ok(s[n]))
    ensures Span(s, ok) == n
  {
    SpanOf(s[..n], s[n..], ok);
    assert s == s[..n] + s[n..];
  }

  /** A rest that begins with a dot or a `+` is build data. */
  lemma {:induction false} RestIsBuild(text: string)
    requires BuildOnly(TakeNumbers(text).1)
    ensures PartsOf(text) == ("", Softened(TakeNumbers(text).1[1..]))
  {
    var rest := TakeNumbers(text).1;
    CleanCut(rest, 1, |rest|);
    assert Clean(rest)[1..] == Clean(rest)[1..|rest|] && rest[1..|rest|] == rest[1..];
    SoftenedBuild(rest[1..]);
  }

  /** Where the part without a hyphen in front is cut. */
  lemma {:induction false} BodySpan(rest: string, k: nat)
    requires rest != "" && FirstPlus(rest, Begin(rest), k)
    ensures Span(Clean(rest)[Begin(rest)..], NoPlus) == k - Begin(rest)
  {
    var from := Begin(rest);
    var body := Clean(rest)[from..];
    assert forall i :: 0 <= i < |body| ==> body[i] == Clean(rest)[from + i];
    SpanIs(body, NoPlus, k - from);
  }

  lemma {:induction false} SoftenedSides(rest: string, from: nat, k: nat)
    requires from <= 1 && FirstPlus(rest, from, k)
    ensures Clean(rest)[from..][..k - from] == Softened(rest[from..k])
    ensures k < |rest| ==> PlusToDot(Clean(rest)[from..][k - from + 1..]) == Softened(rest[k + 1..])
  {
    var clean := Clean(rest);
    assert clean[from..][..k - from] == clean[from..k];
    CleanCut(rest, from, k);
    SoftenedPrerelease(rest[from..k]);
    if k < |rest| {
      assert clean[from..][k - from + 1..] == clean[k + 1..|rest|] && rest[k + 1..|rest|] == rest[k + 1..];
      CleanCut(rest, k + 1, |rest|);
      SoftenedBuild(rest[k + 1..]);
    }
  }

  /** Any other is a prerelease up to the first `+` and build data after it; a hyphen in front is dropped. */
  lemma {:induction false} RestIsDivided(text: string, k: nat)
    requires TakeNumbers(text).1 != "" && !BuildOnly(TakeNumbers(text).1)
    requires FirstPlus(TakeNumbers(text).1, Begin(TakeNumbers(text).1), k)
    ensures var rest := TakeNumbers(text).1;
      PartsOf(text) == (Softened(rest[Begin(rest)..k]), if k < |rest| then Softened(rest[k + 1..]) else "")
  {
    var rest := TakeNumbers(text).1;
    BodySpan(rest, k);
    SoftenedSides(rest, Begin(rest), k);
    DivideAfterHyphen(rest);
  }

  lemma {:induction false} DivideAfterHyphen(rest: string)
    requires rest != "" && !BuildOnly(rest)
    ensures var body := Clean(rest)[Begin(rest)..];
      var n := Span(body, NoPlus);
      Divide(Clean(rest)) == (body[..n], if n == |body| then "" else PlusToDot(body[n + 1..]))
  {
    assert Clean(rest)[0..] == Clean(rest);
  }

  // ----- more than three numbers -----

  lemma {:induction false} JoinBoth(a: seq<string>, b: seq<string>, sep: char)
    requires a != [] && b != []
    ensures Join(a + b, sep) == Join(a, sep) + [sep] + Join(b, sep)
    decreases |a|
  {
    if |a| == 1 {
      assert (a + b)[1..] == b;
    } else {
      JoinBoth(a[1..], b, sep);
      assert (a + b)[1..] == a[1..] + b;
    }
  }

  lemma {:induction false} SoftenedBoth(a: string, b: string)
    requires All(a, InClass) && All(b, InClass)
    ensures Softened(a + ['+'] + b) == a + ['.'] + b
    ensures Softened(a) == a
  {
  }

  lemma {:induction false} ThreeNumbersEnd(g: Groups, rest: string)
    requires NumberGroups(g) && g.patch.Some? && (rest != "" ==> !IsDigit(rest[0]))
    ensures TakeNumbers(NumberText(g) + rest) == (g.(prerelease := None, build := None), rest)
  {
    var patchText := Marked('.', g.patch) + rest;
    var minorText := Marked('.', g.minor) + patchText;
    assert NumberText(g) + rest == g.major + minorText;
    SpanOf(g.major, minorText, IsDigit);
    TakeFinds(g.minor, patchText, '.', IsDigit, false);
    TakeFinds(g.patch, rest, '.', IsDigit, false);
  }

  /** The identifiers, and after a `+` some more. */
  function BuildText(extra: seq<string>, more: seq<string>): string {
    Join(extra, '.') + if more == [] then "" else ['+'] + Join(more, '.')
  }

  lemma {:induction false} BuildTextItems(extra: seq<string>, more: seq<string>)
    requires extra != [] && ValidIdentifiers(extra, true) && ValidIdentifiers(more, true)
    ensures Items(Some(Softened(BuildText(extra, more)))) == extra + more
  {
    JoinedItems(extra, true);
    if more == [] {
      SoftenedBoth(Join(extra, '.'), "");
      assert BuildText(extra, more) == Join(extra, '.') && extra + more == extra;
    } else {
      JoinedItems(more, true);
      SoftenedBoth(Join(extra, '.'), Join(more, '.'));
      Associative(Join(extra, '.'), ['+'], Join(more, '.'));
      JoinBoth(extra, more, '.');
      JoinedItems(extra + more, true);
    }
  }

  lemma {:induction false} ExtraParts(g: Groups, extra: seq<string>, more: seq<string>)
    requires NumberGroups(g) && g.patch.Some? && extra != []
    ensures var text := NumberText(g) + (['.'] + BuildText(extra, more));
      && PartsOf(text) == ("", Softened(BuildText(extra, more)))
      && TakeNumbers(text).0 == g.(prerelease := None, build := None)
  {
    var rest := ['.'] + BuildText(extra, more);
    ThreeNumbersEnd(g, rest);
    RestIsBuild(NumberText(g) + rest);
    assert rest[1..] == BuildText(extra, more);
  }

  lemma {:induction false} CoerceBuild(text: string, build: string)
    requires TakeNumbers(text).0.major != "" && NumberGroups(TakeNumbers(text).0) && PartsOf(text) == ("", build)
    requires Acceptable(Items(Some(build)), true)
    ensures CoerceOf(text, false) == Some(CoercedVersion(TakeNumbers(text).0, "", build, false))
  {
    CoerceMeans(text, false);
    assert Items(Some("")) == [];
  }

  lemma {:induction false} BuildVersion(g: Groups, build: string)
    requires NumberGroups(g) && g.patch.Some?
    ensures CoercedVersion(g, "", build, false) ==
      Version(Number(g.major), Some(Number(g.minor.value)), Some(Number(g.patch.value)), Some([]), Some(Items(Some(build))), false)
  {
    assert Items(Some("")) == [];
  }

  /** Numbers behind the third, and any build data that follows them, are the build of the version. */
  lemma {:induction false} ExtraNumbersAreBuild(g: Groups, extra: seq<string>, more: seq<string>)
    requires NumberGroups(g) && g.patch.Some?
    requires extra != [] && ValidIdentifiers(extra, true) && ValidIdentifiers(more, true)
    ensures CoerceOf(NumberText(g) + (['.'] + BuildText(extra, more)), false) ==
      Some(Version(Number(g.major), Some(Number(g.minor.value)), Some(Number(g.patch.value)), Some([]), Some(extra + more), false))
  {
    var build := Softened(BuildText(extra, more));
    ExtraParts(g, extra, more);
    BuildTextItems(extra, more);
    assert ValidIdentifiers(extra + more, true);
    Acceptables(extra + more);
    CoerceBuild(NumberText(g) + (['.'] + BuildText(extra, more)), build);
    BuildVersion(g.(prerelease := None, build := None), build);
  }

  lemma {:induction false} Acceptables(items: seq<string>)
    requires ValidIdentifiers(items, true)
    ensures Acceptable(items, true)
  {
  }
}
