/** Semantic versions: what a version holds, and which ones are valid. */
module Versions {
  import opened Common
  import opened Decimals

  /** Only partial versions lack a minor or patch number, a prerelease or a build. */
  datatype Version = Version(
    major: nat, minor: Option<nat>, patch: Option<nat>,
    prerelease: Option<seq<string>>, build: Option<seq<string>>, partial: bool)

  predicate IsIdentifierChar(c: char) {
    IsDigit(c) || 'a' <= c <= 'z' || 'A' <= c <= 'Z' || c == '-'
  }

  predicate HasLeadingZero(item: string) {
    item != "" && item[0] == '0' && AllDigits(item) && item != "0"
  }

  predicate ValidIdentifier(item: string, allowLeadingZeroes: bool) {
    && item != "" && (forall i :: 0 <= i < |item| ==> IsIdentifierChar(item[i]))
    && (HasLeadingZero(item) ==> allowLeadingZeroes)
  }

  predicate ValidIdentifiers(items: seq<string>, allowLeadingZeroes: bool) {
    forall i :: 0 <= i < |items| ==> ValidIdentifier(items[i], allowLeadingZeroes)
  }

  /** A full version, valid as section 9 and 10 of SemVer 2.0.0 have it. */
  predicate Full(v: Version) {
    && !v.partial && v.minor.Some? && v.patch.Some? && v.prerelease.Some? && v.build.Some?
    && ValidIdentifiers(v.prerelease.value, false) && ValidIdentifiers(v.build.value, true)
  }

  /** The constructor without identifiers. */
  function Numbers(major: nat, minor: nat, patch: nat, partial: bool): Version {
    Version(major, Some(minor), Some(patch), Some([]), if partial then None else Some([]), partial)
  }
}
