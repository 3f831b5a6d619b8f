/**
 The order of versions as their keys compare, operator by operator, and the next versions.
 The reference is section 11 of SemVer 2.0.0.
 */
module VersionOrder {
  import opened Common
  import opened Decimals
  import opened Versions

  // ----- keys -----

  datatype Identifier = MaxIdentifier | NumericIdentifier(value: nat) | AlphaIdentifier(text: string)

  datatype Operator = Lt | Le | Gt | Ge

  predicate IntOp(op: Operator, m: int, n: int) {
    match op case Lt => m < n case Le => m <= n case Gt => m > n case Ge => m >= n
  }

  /** Sequences compare at the first difference, else by length. */
  predicate LexLess<T(==)>(a: seq<T>, b: seq<T>, less: (T, T) -> bool) {
    if a == [] || b == [] then |a| < |b| else if a[0] == b[0] then LexLess(a[1..], b[1..], less) else less(a[0], b[0])
  }

  predicate CharLess(c: char, d: char) {
    c < d
  }

  /** The order of `bytes`. */
  predicate TextLess(a: string, b: string) {
    LexLess(a, b, CharLess)
  }

  /** `__lt__` of the two classes that have it. */
  predicate OwnLess(a: Identifier, b: Identifier)
    requires !a.MaxIdentifier?
  {
    match a
    case NumericIdentifier(x) => !b.NumericIdentifier? || x < b.value
    case AlphaIdentifier(s) => b.MaxIdentifier? || (b.AlphaIdentifier? && TextLess(s, b.text))
  }

  /** The operators derived from `__lt__`, and reflected when the left side is the maximum, which has none. */
  predicate IdOp(op: Operator, a: Identifier, b: Identifier)
    requires a != b
  {
    if !a.MaxIdentifier? then
      match op
      case Lt => OwnLess(a, b)
      case Le => OwnLess(a, b) || a == b
      case Gt => !OwnLess(a, b) && a != b
      case Ge => !OwnLess(a, b)
    else
      match op
      case Lt => !OwnLess(b, a) && b != a
      case Le => !OwnLess(b, a)
      case Gt => OwnLess(b, a)
      case Ge => OwnLess(b, a) || b == a
  }

  /** Tuples compare at the first difference, else by length. */
  predicate TupleOp(op: Operator, a: seq<Identifier>, b: seq<Identifier>) {
    if a == [] || b == [] then IntOp(op, |a|, |b|)
    else if a[0] == b[0] then TupleOp(op, a[1..], b[1..])
    else IdOp(op, a[0], b[0])
  }

  function IdentifierOf(part: string): Identifier {
    if IsNumber(part) then NumericIdentifier(Number(part)) else AlphaIdentifier(part)
  }

  function Identifiers(parts: seq<string>): (ids: seq<Identifier>)
    ensures |ids| == |parts| && forall i :: 0 <= i < |parts| ==> ids[i] == IdentifierOf(parts[i])
  {
    seq(|parts|, i requires 0 <= i < |parts| => IdentifierOf(parts[i]))
  }

  function PrereleaseKey(v: Version): seq<Identifier>
    requires Full(v)
  {
    if v.prerelease.value != [] then Identifiers(v.prerelease.value) else [MaxIdentifier]
  }

  predicate VersionOp(op: Operator, v: Version, w: Version)
    requires Full(v) && Full(w)
  {
    if v.major != w.major then IntOp(op, v.major, w.major)
    else if v.minor != w.minor then IntOp(op, v.minor.value, w.minor.value)
    else if v.patch != w.patch then IntOp(op, v.patch.value, w.patch.value)
    else if PrereleaseKey(v) != PrereleaseKey(w) then TupleOp(op, PrereleaseKey(v), PrereleaseKey(w))
    else IntOp(op, 4, 4)
  }

  predicate VersionEquals(v: Version, w: Version) {
    && v.major == w.major && v.minor == w.minor && v.patch == w.patch
    && (if v.prerelease.None? then [] else v.prerelease.value) == (if w.prerelease.None? then [] else w.prerelease.value)
    && (if v.build.None? then [] else v.build.value) == (if w.build.None? then [] else w.build.value)
  }

  // ----- section 11 of SemVer 2.0.0 -----

  /** Lower at the first difference, or a beginning of the other. */
  ghost predicate LexLower<T>(a: seq<T>, b: seq<T>, less: (T, T) -> bool) {
    || (|a| < |b| && a == b[..|a|])
    || exists k :: FirstAt(a, b, k) && less(a[k], b[k])
  }

  ghost predicate FirstAt<T>(a: seq<T>, b: seq<T>, k: int) {
    0 <= k < |a| && k < |b| && a[..k] == b[..k] && a[k] != b[k]
  }

  /** Numeric fields compare as numbers and are below the others, which compare as text. */
  predicate FieldLower(a: string, b: string) {
    if IsNumber(a) then !IsNumber(b) || Number(a) < Number(b) else !IsNumber(b) && TextLess(a, b)
  }

  /** Fields from left to right until a difference is found; fewer fields are lower than more. */
  ghost predicate FieldsLower(a: seq<string>, b: seq<string>) {
    LexLower(a, b, FieldLower)
  }

  /** Lower precedence: by the first different number; then a prerelease is below its release. */
  ghost predicate Precedes(v: Version, w: Version)
    requires Full(v) && Full(w)
  {
    || v.major < w.major
    || (v.major == w.major && v.minor.value < w.minor.value)
    || (v.major == w.major && v.minor == w.minor && v.patch.value < w.patch.value)
    || (v.major == w.major && v.minor == w.minor && v.patch == w.patch && v.prerelease.value != [] &&
        (w.prerelease.value == [] || FieldsLower(v.prerelease.value, w.prerelease.value)))
  }

  // ----- orders of sequences -----

  ghost predicate StrictOrder<T(!new)>(less: (T, T) -> bool) {
    && (forall x :: !less(x, x))
    && (forall x, y :: x != y ==> less(x, y) || less(y, x))
    && (forall x, y, z :: less(x, y) && less(y, z) ==> less(x, z))
  }

  lemma {:induction false} Asymmetric<T(!new)>(x: T, y: T, less: (T, T) -> bool)
    requires StrictOrder(less)
    ensures !(less(x, y) && less(y, x))
  {
    assert less(x, y) && less(y, x) ==> less(x, x);
  }

  lemma {:induction false} LexTotal<T(!new)>(a: seq<T>, b: seq<T>, less: (T, T) -> bool)
    requires StrictOrder(less)
    ensures LexLess(a, b, less) ==> a != b && !LexLess(b, a, less)
    ensures LexLess(a, b, less) || a == b || LexLess(b, a, less)
    decreases |a|
  {
    if a != [] && b != [] {
      assert a == [a[0]] + a[1..] && b == [b[0]] + b[1..];
      if a[0] == b[0] {
        LexTotal(a[1..], b[1..], less);
      } else {
        Asymmetric(a[0], b[0], less);
      }
    }
  }

  lemma {:induction false} LexTransitive<T(!new)>(a: seq<T>, b: seq<T>, c: seq<T>, less: (T, T) -> bool)
    requires StrictOrder(less) && LexLess(a, b, less) && LexLess(b, c, less)
    ensures LexLess(a, c, less)
    decreases |a|
  {
    if a != [] {
      if a[0] == b[0] && b[0] == c[0] {
        LexTransitive(a[1..], b[1..], c[1..], less);
      } else if a[0] != b[0] && b[0] != c[0] {
        assert less(a[0], c[0]);
        assert !less(a[0], a[0]);
      }
    }
  }

  lemma {:induction false} LexStep<T>(a: seq<T>, b: seq<T>, less: (T, T) -> bool)
    requires a != [] && b != [] && a[0] == b[0]
    ensures LexLower(a, b, less) <==> LexLower(a[1..], b[1..], less)
  {
    var c, d := a[1..], b[1..];
    assert a == [a[0]] + c && b == [b[0]] + d;
    if k :| FirstAt(c, d, k) && less(c[k], d[k]) {
      assert a[..k + 1] == [a[0]] + c[..k] && b[..k + 1] == [b[0]] + d[..k];
      assert FirstAt(a, b, k + 1);
    }
    if k :| FirstAt(a, b, k) && less(a[k], b[k]) {
      assert c[..k - 1] == a[..k][1..] && d[..k - 1] == b[..k][1..];
      assert FirstAt(c, d, k - 1);
    }
    if |c| < |d| && c == d[..|c|] {
      assert b[..|a|] == [b[0]] + d[..|c|];
    }
    if |a| < |b| && a == b[..|a|] {
      assert d[..|c|] == b[..|a|][1..];
    }
  }

  lemma {:induction false} LexHeads<T>(a: seq<T>, b: seq<T>, less: (T, T) -> bool)
    requires a != [] && b != [] && a[0] != b[0]
    ensures LexLower(a, b, less) <==> less(a[0], b[0])
  {
    if less(a[0], b[0]) {
      assert FirstAt(a, b, 0);
    }
    if k :| FirstAt(a, b, k) && less(a[k], b[k]) {
      if k > 0 { HeadKept(a, b, k); }
    }
    if |a| < |b| {
      assert b[..|a|][0] == b[0];
    }
  }

  lemma {:induction false} HeadKept<T>(a: seq<T>, b: seq<T>, k: nat)
    requires 0 < k <= |a| && k <= |b| && a[..k] == b[..k]
    ensures a[0] == b[0]
  {
    assert a[..k][0] == a[0] && b[..k][0] == b[0];
  }

  /** Walking both sequences finds the first difference. */
  lemma {:induction false} LexMeans<T>(a: seq<T>, b: seq<T>, less: (T, T) -> bool)
    ensures LexLess(a, b, less) <==> LexLower(a, b, less)
    decreases |a|
  {
    if a != [] && b != [] {
      if a[0] == b[0] {
        LexStep(a, b, less);
        LexMeans(a[1..], b[1..], less);
      } else {
        LexHeads(a, b, less);
      }
    }
  }

  // ----- the operators of identifiers and their tuples -----

  lemma {:induction false} CharOrder()
    ensures StrictOrder(CharLess)
  {
  }

  /** Numbers, then texts, then the maximum. */
  predicate Below(a: Identifier, b: Identifier) {
    a != b && IdOp(Lt, a, b)
  }

  lemma {:induction false} BelowTotal(a: Identifier, b: Identifier)
    ensures Below(a, b) ==> !Below(b, a)
    ensures a == b || Below(a, b) || Below(b, a)
  {
    CharOrder();
    if a.AlphaIdentifier? && b.AlphaIdentifier? {
      LexTotal(a.text, b.text, CharLess);
    }
  }

  lemma {:induction false} BelowTransitive(a: Identifier, b: Identifier, c: Identifier)
    requires Below(a, b) && Below(b, c)
    ensures Below(a, c)
  {
    CharOrder();
    if a.AlphaIdentifier? && b.AlphaIdentifier? && c.AlphaIdentifier? {
      LexTransitive(a.text, b.text, c.text, CharLess);
    }
    BelowTotal(a, c);
    BelowTotal(b, c);
  }

  lemma {:induction false} BelowOrder()
    ensures StrictOrder(Below)
  {
    forall a, b ensures a == b || Below(a, b) || Below(b, a) { BelowTotal(a, b); }
    forall a, b, c | Below(a, b) && Below(b, c) ensures Below(a, c) { BelowTransitive(a, b, c); }
  }

  /** The four operators of different identifiers come from one order. */
  lemma {:induction false} IdOpsAgree(a: Identifier, b: Identifier)
    requires a != b
    ensures IdOp(Lt, a, b) == IdOp(Le, a, b) == Below(a, b)
    ensures IdOp(Gt, a, b) == IdOp(Ge, a, b) == Below(b, a)
  {
    BelowTotal(a, b);
  }

  lemma {:induction false} TupleOpsAgree(a: seq<Identifier>, b: seq<Identifier>)
    ensures TupleOp(Lt, a, b) == LexLess(a, b, Below)
    ensures TupleOp(Gt, a, b) == LexLess(b, a, Below)
    ensures TupleOp(Le, a, b) == (LexLess(a, b, Below) || a == b)
    ensures TupleOp(Ge, a, b) == (LexLess(b, a, Below) || a == b)
    decreases |a|
  {
    if a != [] && b != [] {
      assert a == [a[0]] + a[1..] && b == [b[0]] + b[1..];
      if a[0] == b[0] {
        TupleOpsAgree(a[1..], b[1..]);
      } else {
        IdOpsAgree(a[0], b[0]);
      }
    }
  }

  // ----- keys and prereleases -----

  lemma {:induction false} IdentifierTells(a: string, b: string)
    requires ValidIdentifier(a, false) && ValidIdentifier(b, false)
    ensures IdentifierOf(a) == IdentifierOf(b) ==> a == b
    ensures a != b ==> (Below(IdentifierOf(a), IdentifierOf(b)) <==> FieldLower(a, b))
  {
    if IsNumber(a) && IsNumber(b) {
      CanonicalIsNumeral(a);
      CanonicalIsNumeral(b);
    }
  }

  lemma {:induction false} IdentifiersCons(a: seq<string>)
    requires a != []
    ensures Identifiers(a) != [] && Identifiers(a)[0] == IdentifierOf(a[0]) && Identifiers(a)[1..] == Identifiers(a[1..])
  {
  }

  lemma {:induction false} IdentifiersTell(a: seq<string>, b: seq<string>)
    requires ValidIdentifiers(a, false) && ValidIdentifiers(b, false) && Identifiers(a) == Identifiers(b)
    ensures a == b
  {
    forall i | 0 <= i < |a| ensures a[i] == b[i] {
      assert Identifiers(a)[i] == Identifiers(b)[i];
      IdentifierTells(a[i], b[i]);
    }
  }

  /** Comparing the identifiers is comparing the fields. */
  lemma {:induction false} IdentifiersCompare(a: seq<string>, b: seq<string>)
    requires ValidIdentifiers(a, false) && ValidIdentifiers(b, false)
    ensures LexLess(Identifiers(a), Identifiers(b), Below) == LexLess(a, b, FieldLower)
    decreases |a|
  {
    if a != [] && b != [] {
      IdentifiersCons(a);
      IdentifiersCons(b);
      IdentifierTells(a[0], b[0]);
      IdentifiersCompare(a[1..], b[1..]);
    }
  }

  // ----- versions -----

  predicate SameNumbers(v: Version, w: Version) {
    v.major == w.major && v.minor == w.minor && v.patch == w.patch
  }

  predicate DifferInBuildOnly(v: Version, w: Version) {
    SameNumbers(v, w) && v.prerelease == w.prerelease
  }

  lemma {:induction false} PrereleaseKeyTells(v: Version, w: Version)
    requires Full(v) && Full(w)
    ensures PrereleaseKey(v) == PrereleaseKey(w) <==> v.prerelease == w.prerelease
  {
    var p, q := v.prerelease.value, w.prerelease.value;
    if p != [] && q != [] && Identifiers(p) == Identifiers(q) {
      IdentifiersTell(p, q);
    }
    if p == [] && q != [] {
      assert Identifiers(q)[0] == IdentifierOf(q[0]) != MaxIdentifier;
    }
    if p != [] && q == [] {
      assert Identifiers(p)[0] == IdentifierOf(p[0]) != MaxIdentifier;
    }
  }

  lemma {:induction false} PrereleaseKeyCompares(v: Version, w: Version)
    requires Full(v) && Full(w) && v.prerelease != w.prerelease
    ensures LexLess(PrereleaseKey(v), PrereleaseKey(w), Below) <==>
      v.prerelease.value != [] && (w.prerelease.value == [] || FieldsLower(v.prerelease.value, w.prerelease.value))
  {
    var p, q := v.prerelease.value, w.prerelease.value;
    if p != [] && q != [] {
      IdentifiersCompare(p, q);
      LexMeans(p, q, FieldLower);
    } else if p != [] {
      assert Identifiers(p)[0] == IdentifierOf(p[0]);
    } else {
      assert Identifiers(q)[0] == IdentifierOf(q[0]);
    }
  }

  /** `v < w` is lower precedence as section 11 defines it. */
  lemma {:induction false} LessIffPrecedes(v: Version, w: Version)
    requires Full(v) && Full(w)
    ensures VersionOp(Lt, v, w) <==> Precedes(v, w)
  {
    PrereleaseKeyTells(v, w);
    TupleOpsAgree(PrereleaseKey(v), PrereleaseKey(w));
    if v.prerelease != w.prerelease {
      PrereleaseKeyCompares(v, w);
    } else {
      NotLowerThanItself(v.prerelease.value);
    }
  }

  lemma {:induction false} NotLowerThanItself(a: seq<string>)
    ensures !FieldsLower(a, a)
  {
  }

  /** The other three operators are what `<` makes of them, ties being the versions that differ in build only. */
  lemma {:induction false} OperatorsAgree(v: Version, w: Version)
    requires Full(v) && Full(w)
    ensures VersionOp(Gt, v, w) == VersionOp(Lt, w, v)
    ensures VersionOp(Le, v, w) == (VersionOp(Lt, v, w) || DifferInBuildOnly(v, w))
    ensures VersionOp(Ge, v, w) == (VersionOp(Lt, w, v) || DifferInBuildOnly(v, w))
  {
    PrereleaseKeyTells(v, w);
    TupleOpsAgree(PrereleaseKey(v), PrereleaseKey(w));
    TupleOpsAgree(PrereleaseKey(w), PrereleaseKey(v));
  }

  /** Of two versions exactly one comes first, unless they differ in build only. */
  lemma {:induction false} ComparesTotally(v: Version, w: Version)
    requires Full(v) && Full(w)
    ensures VersionOp(Lt, v, w) ==> !VersionOp(Lt, w, v) && !DifferInBuildOnly(v, w)
    ensures VersionOp(Lt, v, w) || VersionOp(Lt, w, v) || DifferInBuildOnly(v, w)
  {
    PrereleaseKeyTells(v, w);
    TupleOpsAgree(PrereleaseKey(v), PrereleaseKey(w));
    TupleOpsAgree(PrereleaseKey(w), PrereleaseKey(v));
    BelowOrder();
    LexTotal(PrereleaseKey(v), PrereleaseKey(w), Below);
  }

  lemma {:induction false} LessTransitive(u: Version, v: Version, w: Version)
    requires Full(u) && Full(v) && Full(w) && VersionOp(Lt, u, v) && VersionOp(Lt, v, w)
    ensures VersionOp(Lt, u, w)
  {
    var a, b, c := PrereleaseKey(u), PrereleaseKey(v), PrereleaseKey(w);
    if SameNumbers(u, v) && SameNumbers(v, w) {
      TupleOpsAgree(a, b);
      TupleOpsAgree(b, c);
      TupleOpsAgree(a, c);
      BelowOrder();
      LexTransitive(a, b, c, Below);
      LexTotal(a, c, Below);
    }
  }

  /** `<=` is a total preorder. */
  lemma {:induction false} LessOrTiedTransitive(u: Version, v: Version, w: Version)
    requires Full(u) && Full(v) && Full(w) && VersionOp(Le, u, v) && VersionOp(Le, v, w)
    ensures VersionOp(Le, u, w)
  {
    OperatorsAgree(u, v);
    OperatorsAgree(v, w);
    OperatorsAgree(u, w);
    if VersionOp(Lt, u, v) && VersionOp(Lt, v, w) {
      LessTransitive(u, v, w);
    }
  }

  /** Equal versions are tied, and tied versions are equal exactly if their builds are. */
  lemma {:induction false} TiedAndEqual(v: Version, w: Version)
    requires Full(v) && Full(w)
    ensures VersionOp(Le, v, w) && VersionOp(Ge, v, w) <==> DifferInBuildOnly(v, w)
    ensures VersionEquals(v, w) <==> DifferInBuildOnly(v, w) && v.build == w.build
  {
    OperatorsAgree(v, w);
    ComparesTotally(v, w);
  }

  // ----- next versions -----

  predicate HasPrerelease(v: Version) {
    v.prerelease.Some? && v.prerelease.value != []
  }

  function NextMajor(v: Version): Version {
    if HasPrerelease(v) && v.minor == v.patch == Some(0) then Numbers(v.major, 0, 0, v.partial)
    else Numbers(v.major + 1, 0, 0, v.partial)
  }

  function NextMinor(v: Version): Version
    requires v.minor.Some?
  {
    if HasPrerelease(v) && v.patch == Some(0) then Numbers(v.major, v.minor.value, 0, v.partial)
    else Numbers(v.major, v.minor.value + 1, 0, v.partial)
  }

  function NextPatch(v: Version): Version
    requires v.minor.Some? && v.patch.Some?
  {
    if HasPrerelease(v) then Numbers(v.major, v.minor.value, v.patch.value, v.partial)
    else Numbers(v.major, v.minor.value, v.patch.value + 1, v.partial)
  }

  /** A version without a prerelease. */
  predicate IsRelease(v: Version) {
    Full(v) && v.prerelease == Some([])
  }

  lemma {:induction false} ReleaseBelow(v: Version, w: Version)
    requires Full(v) && IsRelease(w)
    ensures VersionOp(Lt, v, w) <==>
      (|| v.major < w.major
       || (v.major == w.major && v.minor.value < w.minor.value)
       || (v.major == w.major && v.minor == w.minor && v.patch.value < w.patch.value)
       || (SameNumbers(v, w) && HasPrerelease(v)))
  {
    LessIffPrecedes(v, w);
  }

  /** The least release above a version. */
  lemma {:induction false} NextPatchLeast(v: Version, w: Version)
    requires Full(v) && IsRelease(w)
    ensures IsRelease(NextPatch(v)) && VersionOp(Lt, v, NextPatch(v))
    ensures VersionOp(Lt, v, w) <==> VersionOp(Le, NextPatch(v), w)
  {
    ReleaseBelow(v, NextPatch(v));
    ReleaseBelow(v, w);
    ReleaseBelow(NextPatch(v), w);
    OperatorsAgree(NextPatch(v), w);
  }

  /** The least release above a version whose patch is zero. */
  lemma {:induction false} NextMinorLeast(v: Version, w: Version)
    requires Full(v) && IsRelease(w) && w.patch == Some(0)
    ensures IsRelease(NextMinor(v)) && NextMinor(v).patch == Some(0) && VersionOp(Lt, v, NextMinor(v))
    ensures VersionOp(Lt, v, w) <==> VersionOp(Le, NextMinor(v), w)
  {
    ReleaseBelow(v, NextMinor(v));
    ReleaseBelow(v, w);
    ReleaseBelow(NextMinor(v), w);
    OperatorsAgree(NextMinor(v), w);
  }

  /** The least release above a version whose minor and patch are zero. */
  lemma {:induction false} NextMajorLeast(v: Version, w: Version)
    requires Full(v) && IsRelease(w) && w.minor == w.patch == Some(0)
    ensures IsRelease(NextMajor(v)) && NextMajor(v).minor == NextMajor(v).patch == Some(0) && VersionOp(Lt, v, NextMajor(v))
    ensures VersionOp(Lt, v, w) <==> VersionOp(Le, NextMajor(v), w)
  {
    ReleaseBelow(v, NextMajor(v));
    ReleaseBelow(v, w);
    ReleaseBelow(NextMajor(v), w);
    OperatorsAgree(NextMajor(v), w);
  }
}
