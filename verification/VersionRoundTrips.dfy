/** Printing and parsing versions undo each other; coercion leaves version text alone. */
module VersionRoundTrips {
  import opened Common
  import opened Decimals
  import opened Texts
  import opened Versions
  import opened VersionText

  // ----- what parsing gives -----

  lemma {:induction false} ItemsValid(group: Option<string>, allowLeadingZeroes: bool)
    requires (group.Some? ==> All(group.value, InClass)) && Acceptable(Items(group), allowLeadingZeroes)
    ensures ValidIdentifiers(Items(group), allowLeadingZeroes)
  {
    if group.Some? && group.value != "" {
      SplitHasNoSep(group.value, '.');
      SplitChars(group.value, '.');
      forall i, k | 0 <= i < |Items(group)| && 0 <= k < |Items(group)[i]| ensures IsIdentifierChar(Items(group)[i][k]) {
        assert Items(group)[i][k] in Items(group)[i];
        assert Items(group)[i][k] in group.value;
      }
    }
  }

  /** Whatever the full pattern accepts is a valid full version. */
  lemma {:induction false} ParsedIsFull(text: string)
    ensures ParseOf(text, false).Some? ==> Full(ParseOf(text, false).value)
  {
    if ParseOf(text, false).Some? {
      var g := Match(text, false).value;
      MatchSound(text, g, false);
      ItemsValid(g.prerelease, false);
      ItemsValid(g.build, true);
    }
  }

  // ----- a group and the identifiers in it -----

  lemma {:induction false} JoinedItems(items: seq<string>, allowLeadingZeroes: bool)
    requires items != [] && ValidIdentifiers(items, allowLeadingZeroes)
    ensures Join(items, '.') != "" && All(Join(items, '.'), InClass) && Items(Some(Join(items, '.'))) == items
  {
    forall i | 0 <= i < |items| ensures '.' !in items[i] && Plain(items[i], '.') {
      assert ValidIdentifier(items[i], allowLeadingZeroes);
    }
    JoinShape(items, '.');
    SplitJoin(items, '.');
    JoinInClass(items, allowLeadingZeroes);
  }

  lemma {:induction false} JoinInClass(items: seq<string>, allowLeadingZeroes: bool)
    requires ValidIdentifiers(items, allowLeadingZeroes)
    ensures All(Join(items, '.'), InClass)
    decreases |items|
  {
    if items != [] {
      assert ValidIdentifier(items[0], allowLeadingZeroes);
      JoinInClass(items[1..], allowLeadingZeroes);
    }
  }

  lemma {:induction false} SplitGroup(text: string)
    requires text != ""
    ensures Items(Some(text)) != [] && Join(Items(Some(text)), '.') == text
  {
    JoinSplit(text, '.');
  }

  lemma {:induction false} CanonicalIff(s: string)
    requires IsNumber(s)
    ensures Canonical(s) <==> !HasLeadingZero(s)
  {
  }

  // ----- full versions -----

  /** The groups a full version prints are the groups the full pattern reads back. */
  lemma {:induction false} FullGroups(v: Version)
    requires Full(v)
    ensures IsMatch(Spell(GroupsOf(v)), GroupsOf(v), false)
    ensures Items(GroupsOf(v).prerelease) == v.prerelease.value && Items(GroupsOf(v).build) == v.build.value
  {
    NumeralCanonical(v.major);
    NumeralCanonical(v.minor.value);
    NumeralCanonical(v.patch.value);
    if v.prerelease.value != [] { JoinedItems(v.prerelease.value, false); }
    if v.build.value != [] { JoinedItems(v.build.value, true); }
  }

  lemma {:induction false} ParseMatched(text: string, g: Groups, partial: bool)
    requires IsMatch(text, g, partial)
    ensures ParseOf(text, partial) == if Accepts(g) then Some(VersionOf(g, partial)) else None
  {
    MatchComplete(text, g, partial);
  }

  lemma {:induction false} FullAccepted(v: Version)
    requires Full(v) && Items(GroupsOf(v).prerelease) == v.prerelease.value && Items(GroupsOf(v).build) == v.build.value
    ensures Accepts(GroupsOf(v))
  {
    NumeralCanonical(v.major);
    NumeralCanonical(v.minor.value);
    NumeralCanonical(v.patch.value);
    assert forall i :: 0 <= i < |v.prerelease.value| ==> ValidIdentifier(v.prerelease.value[i], false);
    assert forall i :: 0 <= i < |v.build.value| ==> ValidIdentifier(v.build.value[i], true);
  }

  lemma {:induction false} FullVersionOf(v: Version)
    requires Full(v) && Items(GroupsOf(v).prerelease) == v.prerelease.value && Items(GroupsOf(v).build) == v.build.value
    ensures VersionOf(GroupsOf(v), false) == v
  {
    NumeralCanonical(v.major);
    NumeralCanonical(v.minor.value);
    NumeralCanonical(v.patch.value);
  }

  /** Every valid full version is what its printed form parses to. */
  lemma {:induction false} PrintedParses(v: Version)
    requires Full(v)
    ensures ParseOf(Spell(GroupsOf(v)), false) == Some(v)
  {
    FullGroups(v);
    FullAccepted(v);
    FullVersionOf(v);
    ParseMatched(Spell(GroupsOf(v)), GroupsOf(v), false);
  }

  lemma {:induction false} NumbersPrintBack(g: Groups, partial: bool)
    requires NumberGroups(g) && Accepts(g)
    ensures var h := GroupsOf(VersionOf(g, partial));
      h.major == g.major && h.minor == g.minor && h.patch == g.patch
  {
    CanonicalIff(g.major);
    CanonicalIsNumeral(g.major);
    if g.minor.Some? {
      CanonicalIff(g.minor.value);
      CanonicalIsNumeral(g.minor.value);
    }
    if g.patch.Some? {
      CanonicalIff(g.patch.value);
      CanonicalIsNumeral(g.patch.value);
    }
  }

  /** Text that parses as a full version is what that version prints. */
  lemma {:induction false} ParsedPrints(text: string)
    ensures ParseOf(text, false).Some? ==> Spell(GroupsOf(ParseOf(text, false).value)) == text
  {
    if ParseOf(text, false).Some? {
      var g := Match(text, false).value;
      MatchSound(text, g, false);
      NumbersPrintBack(g, false);
      if g.prerelease.Some? { SplitGroup(g.prerelease.value); }
      if g.build.Some? { SplitGroup(g.build.value); }
      assert GroupsOf(VersionOf(g, false)) == g;
    }
  }

  // ----- partial versions -----

  /** The groups a parsed partial version prints: an empty prerelease before a build is not printed. */
  lemma {:induction false} PartialGroups(g: Groups)
    requires NumberGroups(g) && RestGroups(g, true) && Accepts(g)
    ensures GroupsOf(VersionOf(g, true)) ==
      if g.prerelease == Some("") && g.build.Some? then g.(prerelease := None) else g
  {
    NumbersPrintBack(g, true);
    if g.prerelease.Some? && g.prerelease.value != "" { SplitGroup(g.prerelease.value); }
    if g.build.Some? && g.build.value != "" { SplitGroup(g.build.value); }
  }

  /** Every parsed partial version is what its printed form parses to. */
  lemma {:induction false} PartialPrintedParses(text: string)
    ensures ParseOf(text, true).Some? ==>
      ParseOf(Spell(GroupsOf(ParseOf(text, true).value)), true) == ParseOf(text, true)
  {
    if ParseOf(text, true).Some? {
      var g := Match(text, true).value;
      MatchSound(text, g, true);
      PartialGroups(g);
      ParseMatched(text, g, true);
      PartialReread(g);
      var h := GroupsOf(VersionOf(g, true));
      ParseMatched(Spell(h), h, true);
    }
  }

  /** Dropping the empty prerelease before a build changes nothing in the version. */
  lemma {:induction false} PartialReread(g: Groups)
    requires NumberGroups(g) && RestGroups(g, true) && Accepts(g)
    ensures var h := GroupsOf(VersionOf(g, true));
      IsMatch(Spell(h), h, true) && Accepts(h) && VersionOf(h, true) == VersionOf(g, true)
  {
    PartialGroups(g);
    var h := GroupsOf(VersionOf(g, true));
    assert Items(h.prerelease) == Items(g.prerelease);
  }

  /** Partial text prints as it was, exactly unless a `-` with nothing after it stands before a build. */
  lemma {:induction false} PartialParsedPrintsIff(text: string)
    requires ParseOf(text, true).Some?
    ensures var g := Match(text, true).value;
      Spell(GroupsOf(ParseOf(text, true).value)) == text <==> !(g.prerelease == Some("") && g.build.Some?)
  {
    var g := Match(text, true).value;
    MatchSound(text, g, true);
    PartialGroups(g);
    if g.prerelease == Some("") && g.build.Some? {
      assert |RestText(g)| == |RestText(g.(prerelease := None))| + 1;
      assert NumberText(g) == NumberText(g.(prerelease := None));
    }
  }
}
