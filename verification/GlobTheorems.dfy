/**
 The translated pattern accepts a path exactly when the glob matches its segments.
 */
module GlobTheorems {
  import opened Texts
  import opened GlobTranslation
  import opened GlobMatching

  lemma SepSpan(s: string, i: nat, j: nat, cs: Classes)
    requires i <= j <= |s|
    ensures Matches(Sep, s, i, j, cs) <==> j == i + 1 && s[i] == SEP
  {
  }

  lemma {:induction false} OptSepAtEnd(s: string, k: nat, cs: Classes)
    requires k <= |s|
    ensures Matches(Opt(Sep), s, k, |s|, cs) <==> k == |s| || (k + 1 == |s| && s[k] == SEP)
  {
    SepSpan(s, k, |s|, cs);
  }

  // ----- whatever the expression matches, the segments can be handed out -----

  /** The text up to a separator is the path of the segments in front of it. */
  lemma {:induction false} TextBefore(pre: string, segs: seq<string>, k: nat) returns (n: nat)
    requires Pieces(segs) && |pre| <= k < |pre + Join(segs, SEP)| && (pre + Join(segs, SEP))[k] == SEP
    ensures 0 < n < |segs| && k + 1 == |pre| + Offset(segs, n)
    ensures (pre + Join(segs, SEP))[|pre|..k] == Join(segs[..n], SEP)
  {
    n := StartsAreTails(pre, segs, k + 1);
    JoinCut(segs, n);
  }

  lemma {:induction false} EmptyTail(segs: seq<string>, n: nat)
    requires n < |segs| && Join(segs[n..], SEP) == ""
    ensures n == |segs| - 1 && segs[n] == ""
  {
    assert |segs[n..]| == 1;
    assert segs[n..] == [segs[n]];
  }

  lemma {:induction false} LastSound(part: string, pre: string, segs: seq<string>, cs: Classes)
    requires part != "**" && Pieces(segs)
    requires Matches(LastRe(part, false), pre + Join(segs, SEP), |pre|, |pre + Join(segs, SEP)|, cs)
    ensures CoversRest(part, segs, cs)
  {
    var s := pre + Join(segs, SEP);
    var k := CatElim(PartRe(part), Opt(Sep), s, |pre|, |s|, cs);
    OptSepAtEnd(s, k, cs);
    PartTranslated(part, s, |pre|, k, cs);
    if k == |s| {
      assert s[|pre|..k] == Join(segs, SEP);
    } else {
      var n := TextBefore(pre, segs, k);
      JoinCut(segs, n);
      EmptyTail(segs, n);
    }
  }

  lemma {:induction false} InnerSound(part: string, rest: Re, pre: string, segs: seq<string>, cs: Classes) returns (n: nat)
    requires part != "**" && Pieces(segs)
    requires Matches(Cat(PartRe(part), Cat(Sep, rest)), pre + Join(segs, SEP), |pre|, |pre + Join(segs, SEP)|, cs)
    ensures 0 < n < |segs| && PartMatches(part, 0, Join(segs[..n], SEP), cs)
    ensures var s := pre + Join(segs, SEP);
      |pre| + Offset(segs, n) <= |s| && Matches(rest, s, |pre| + Offset(segs, n), |s|, cs)
  {
    var s := pre + Join(segs, SEP);
    var k := CatElim(PartRe(part), Cat(Sep, rest), s, |pre|, |s|, cs);
    var k' := CatElim(Sep, rest, s, k, |s|, cs);
    SepSpan(s, k, k', cs);
    n := TextBefore(pre, segs, k);
    PartTranslated(part, s, |pre|, k, cs);
  }

  lemma {:induction false} StarSound(rest: Re, pre: string, segs: seq<string>, cs: Classes) returns (n: nat)
    requires Pieces(segs)
    requires Matches(Cat(DOUBLE_STAR, rest), pre + Join(segs, SEP), |pre|, |pre + Join(segs, SEP)|, cs)
    ensures n < |segs|
    ensures var s := pre + Join(segs, SEP);
      |pre| + Offset(segs, n) <= |s| && Matches(rest, s, |pre| + Offset(segs, n), |s|, cs)
  {
    var s := pre + Join(segs, SEP);
    var k := CatElim(DOUBLE_STAR, rest, s, |pre|, |s|, cs);
    DoubleStarMatches(s, |pre|, k, cs);
    n := StartsAreTails(pre, segs, k);
  }

  lemma {:induction false} PartsSound(parts: seq<string>, pre: string, segs: seq<string>, cs: Classes) returns (cover: seq<nat>)
    requires parts != [] && Pieces(segs) && AtStart(pre + Join(segs, SEP), |pre|)
    requires Matches(PartsRe(parts, false), pre + Join(segs, SEP), |pre|, |pre + Join(segs, SEP)|, cs)
    ensures Spans(parts, segs, cover, cs)
    decreases |parts|
  {
    if |parts| == 1 {
      if parts[0] == "**" {
        FinalDoubleStar(pre + Join(segs, SEP), |pre|, cs);
      } else {
        LastSound(parts[0], pre, segs, cs);
      }
      return [|segs|];
    }
    var n, pre' := FirstSound(parts, pre, segs, cs);
    var more := PartsSound(parts[1..], pre', segs[n..], cs);
    cover := [n] + more;
    assert cover[1..] == more;
  }

  lemma {:induction false} FirstSound(parts: seq<string>, pre: string, segs: seq<string>, cs: Classes) returns (n: nat, pre': string)
    requires |parts| > 1 && Pieces(segs) && AtStart(pre + Join(segs, SEP), |pre|)
    requires Matches(PartsRe(parts, false), pre + Join(segs, SEP), |pre|, |pre + Join(segs, SEP)|, cs)
    ensures n < |segs|
    ensures parts[0] != "**" ==> n >= 1 && PartMatches(parts[0], 0, Join(segs[..n], SEP), cs)
    ensures pre + Join(segs, SEP) == pre' + Join(segs[n..], SEP) && AtStart(pre + Join(segs, SEP), |pre'|)
    ensures Matches(PartsRe(parts[1..], false), pre + Join(segs, SEP), |pre'|, |pre + Join(segs, SEP)|, cs)
  {
    var rest := PartsRe(parts[1..], false);
    if parts[0] == "**" {
      n := StarSound(rest, pre, segs, cs);
    } else {
      n := InnerSound(parts[0], rest, pre, segs, cs);
    }
    pre' := TailIsStart(pre, segs, n);
  }

  // ----- and the other way round -----

  lemma {:induction false} LastComplete(part: string, pre: string, segs: seq<string>, cs: Classes)
    requires part != "**" && Pieces(segs) && CoversRest(part, segs, cs)
    ensures Matches(LastRe(part, false), pre + Join(segs, SEP), |pre|, |pre + Join(segs, SEP)|, cs)
  {
    var s := pre + Join(segs, SEP);
    var k := |s|;
    if PartMatches(part, 0, Join(segs, SEP), cs) {
      assert s[|pre|..k] == Join(segs, SEP);
    } else {
      var n := |segs| - 1;
      JoinCut(segs, n);
      assert segs[n..] == [""];
      k := |s| - 1;
      assert s[|pre|..k] == Join(segs[..n], SEP);
    }
    PartTranslated(part, s, |pre|, k, cs);
    OptSepAtEnd(s, k, cs);
    CatIntro(PartRe(part), Opt(Sep), s, |pre|, k, |s|, cs);
  }

  lemma {:induction false} InnerComplete(part: string, rest: Re, pre: string, segs: seq<string>, n: nat, cs: Classes)
    requires part != "**" && Pieces(segs) && 0 < n < |segs| && PartMatches(part, 0, Join(segs[..n], SEP), cs)
    requires var s := pre + Join(segs, SEP);
      |pre| + Offset(segs, n) <= |s| && Matches(rest, s, |pre| + Offset(segs, n), |s|, cs)
    ensures Matches(Cat(PartRe(part), Cat(Sep, rest)), pre + Join(segs, SEP), |pre|, |pre + Join(segs, SEP)|, cs)
  {
    var s, k := pre + Join(segs, SEP), |pre| + |Join(segs[..n], SEP)|;
    JoinCut(segs, n);
    assert s[|pre|..k] == Join(segs[..n], SEP) && s[k] == SEP;
    PartTranslated(part, s, |pre|, k, cs);
    SepSpan(s, k, k + 1, cs);
    CatIntro(Sep, rest, s, k, k + 1, |s|, cs);
    CatIntro(PartRe(part), Cat(Sep, rest), s, |pre|, k, |s|, cs);
  }

  lemma {:induction false} PartsComplete(parts: seq<string>, pre: string, segs: seq<string>, cover: seq<nat>, cs: Classes)
    requires parts != [] && Pieces(segs) && AtStart(pre + Join(segs, SEP), |pre|)
    requires Spans(parts, segs, cover, cs)
    ensures Matches(PartsRe(parts, false), pre + Join(segs, SEP), |pre|, |pre + Join(segs, SEP)|, cs)
    decreases |parts|
  {
    var s := pre + Join(segs, SEP);
    if |parts| == 1 {
      if parts[0] == "**" {
        FinalDoubleStar(s, |pre|, cs);
      } else {
        LastComplete(parts[0], pre, segs, cs);
      }
    } else {
      var n := cover[0];
      var pre' := TailIsStart(pre, segs, n);
      PartsComplete(parts[1..], pre', segs[n..], cover[1..], cs);
      FirstComplete(parts, pre, segs, n, pre', cs);
    }
  }

  lemma {:induction false} FirstComplete(parts: seq<string>, pre: string, segs: seq<string>, n: nat, pre': string, cs: Classes)
    requires |parts| > 1 && Pieces(segs) && AtStart(pre + Join(segs, SEP), |pre|) && n < |segs|
    requires parts[0] != "**" ==> n >= 1 && PartMatches(parts[0], 0, Join(segs[..n], SEP), cs)
    requires |pre'| == |pre| + Offset(segs, n)
    requires pre + Join(segs, SEP) == pre' + Join(segs[n..], SEP) && AtStart(pre + Join(segs, SEP), |pre'|)
    requires Matches(PartsRe(parts[1..], false), pre + Join(segs, SEP), |pre'|, |pre + Join(segs, SEP)|, cs)
    ensures Matches(PartsRe(parts, false), pre + Join(segs, SEP), |pre|, |pre + Join(segs, SEP)|, cs)
  {
    var s, rest := pre + Join(segs, SEP), PartsRe(parts[1..], false);
    if parts[0] == "**" {
      DoubleStarMatches(s, |pre|, |pre'|, cs);
      CatIntro(DOUBLE_STAR, rest, s, |pre|, |pre'|, |s|, cs);
    } else {
      InnerComplete(parts[0], rest, pre, segs, n, cs);
    }
  }

  lemma {:induction false} WholeIntro(r: Re, s: string, cs: Classes)
    requires Matches(r, s, 0, |s|, cs)
    ensures Matches(Cat(DotAll(r), End), s, 0, |s|, cs)
  {
    assert Matches(DotAll(r), s, 0, |s|, cs);
    assert Matches(End, s, |s|, |s|, cs);
    CatIntro(DotAll(r), End, s, 0, |s|, |s|, cs);
  }

  lemma {:induction false} WholeElim(r: Re, s: string, j: nat, cs: Classes)
    requires j <= |s| && Matches(Cat(DotAll(r), End), s, 0, j, cs)
    ensures Matches(r, s, 0, |s|, cs)
  {
    var k := CatElim(DotAll(r), End, s, 0, j, cs);
  }

  lemma {:induction false} AcceptsWhole(parts: seq<string>, s: string, cs: Classes)
    requires parts != []
    ensures GlobAccepts(parts, s, cs) <==> Matches(PartsRe(parts, false), s, 0, |s|, cs)
  {
    if GlobAccepts(parts, s, cs) {
      var j :| Mid(0, j, |s|) && Matches(GlobRe(parts, false), s, 0, j, cs);
      WholeElim(PartsRe(parts, false), s, j, cs);
    }
    if Matches(PartsRe(parts, false), s, 0, |s|, cs) {
      WholeIntro(PartsRe(parts, false), s, cs);
      assert Mid(0, |s|, |s|);
    }
  }

  /**
   The regular expression of a glob accepts a path, of whatever segments, exactly when the
   segments can be handed out to the parts; nothing is asked of the parts.
   */
  lemma {:induction false} AcceptsIffSpans(parts: seq<string>, segs: seq<string>, cs: Classes)
    requires parts != [] && Pieces(segs)
    ensures GlobAccepts(parts, Join(segs, SEP), cs) <==> MatchSpans(parts, segs, cs)
  {
    var s := Join(segs, SEP);
    assert "" + s == s;
    AcceptsWhole(parts, s, cs);
    if Matches(PartsRe(parts, false), s, 0, |s|, cs) {
      var cover := PartsSound(parts, "", segs, cs);
      assert SpannedBy(parts, segs, cover, cs);
    }
    if cover :| SpannedBy(parts, segs, cover, cs) {
      PartsComplete(parts, "", segs, cover, cs);
    }
  }

  /** The same for any text: its segments are the pieces between separators. */
  lemma {:induction false} AcceptsText(parts: seq<string>, s: string, cs: Classes)
    requires parts != []
    ensures GlobAccepts(parts, s, cs) <==> MatchSpans(parts, Split(s, SEP), cs)
  {
    JoinSplit(s, SEP);
    SplitHasNoSep(s, SEP);
    AcceptsIffSpans(parts, Split(s, SEP), cs);
  }

  // ----- one segment for each part -----

  lemma {:induction false} NoSegmentsNoMatch(parts: seq<string>, cs: Classes)
    requires parts != []
    ensures !MatchParts(parts, [], cs)
    decreases |parts|
  {
    if |parts| > 1 {
      var none: seq<string> := [];
      NoSegmentsNoMatch(parts[1..], cs);
      assert none[0..] == none;
    }
  }

  lemma {:induction false} SegmentsArePieces(segs: seq<string>)
    requires Segments(segs)
    ensures Pieces(segs) && Join(segs, SEP) != "" && AllPlain(segs, SEP)
  {
    forall k | 0 <= k < |segs| ensures NoSep(segs[k]) && Plain(segs[k], SEP) {
      assert Segment(segs[k]);
    }
    JoinShape(segs, SEP);
  }

  /** Handing out single segments is matching segment by segment. */
  lemma {:induction false} NarrowMatches(parts: seq<string>, segs: seq<string>, cover: seq<nat>, cs: Classes)
    requires parts != [] && Segments(segs) && Spans(parts, segs, cover, cs) && Narrow(parts, cover)
    ensures MatchParts(parts, segs, cs)
    decreases |parts|
  {
    if |parts| == 1 {
      if parts[0] != "**" {
        assert segs[..1] == segs;
        JoinOne(segs);
      }
    } else {
      var n := cover[0];
      NarrowMatches(parts[1..], segs[n..], cover[1..], cs);
      if parts[0] != "**" { JoinOne(segs); }
    }
  }

  lemma {:induction false} MatchedIsNarrow(parts: seq<string>, segs: seq<string>, cs: Classes) returns (cover: seq<nat>)
    requires parts != [] && Segments(segs) && MatchParts(parts, segs, cs)
    ensures Spans(parts, segs, cover, cs) && Narrow(parts, cover)
    decreases |parts|
  {
    if |parts| == 1 {
      SegmentsArePieces(segs);
      if parts[0] != "**" {
        assert segs[..1] == segs;
        JoinOne(segs);
      }
      return [|segs|];
    }
    var n: nat := 1;
    if parts[0] == "**" {
      n :| n <= |segs| && MatchParts(parts[1..], segs[n..], cs);
    } else {
      JoinOne(segs);
    }
    NoSegmentsNoMatch(parts[1..], cs);
    var more := MatchedIsNarrow(parts[1..], segs[n..], cs);
    cover := [n] + more;
    assert cover[1..] == more;
  }

  /**
   A path is accepted although no match goes segment by segment exactly when the segments can be
   handed out, and every way to do so gives some part other than `**` two segments or more.
   */
  lemma {:induction false} AcceptedBeyondSegmentsIff(parts: seq<string>, segs: seq<string>, cs: Classes)
    requires parts != [] && Segments(segs)
    ensures GlobAccepts(parts, Join(segs, SEP), cs) && !MatchParts(parts, segs, cs) <==>
      (&& MatchSpans(parts, segs, cs)
       && forall cover :: SpannedBy(parts, segs, cover, cs) ==>
            exists i :: 0 <= i < |parts| && i < |cover| && parts[i] != "**" && cover[i] >= 2)
  {
    SegmentsArePieces(segs);
    AcceptsIffSpans(parts, segs, cs);
    if MatchParts(parts, segs, cs) {
      var cover := MatchedIsNarrow(parts, segs, cs);
      assert SpannedBy(parts, segs, cover, cs);
    } else {
      forall cover | SpannedBy(parts, segs, cover, cs)
        ensures exists i :: 0 <= i < |parts| && i < |cover| && parts[i] != "**" && cover[i] >= 2
      {
        if Narrow(parts, cover) { NarrowMatches(parts, segs, cover, cs); }
        var i :| 0 <= i < |parts| && i < |cover| && parts[i] != "**" && cover[i] != 1;
        CoverPositive(parts, segs, cover, i, cs);
      }
    }
  }

  lemma {:induction false} CoverPositive(parts: seq<string>, segs: seq<string>, cover: seq<nat>, i: nat, cs: Classes)
    requires parts != [] && Spans(parts, segs, cover, cs) && i < |parts| && parts[i] != "**"
    ensures i < |cover| && cover[i] >= 1
    decreases |parts|
  {
    if i > 0 { CoverPositive(parts[1..], segs[cover[0]..], cover[1..], i - 1, cs); }
  }

  /** Text matched by a safe part is one segment. */
  lemma {:induction false} SafePartStaysInside(part: string, segs: seq<string>, cs: Classes)
    requires SafePart(part, cs) && Segments(segs) && PartMatches(part, 0, Join(segs, SEP), cs)
    ensures |segs| == 1
  {
    TokensMean(part, 0, Join(segs, SEP), cs);
    SafeTokensStayInside(Tokens(part, 0), Join(segs, SEP), cs);
    SegmentsArePieces(segs);
    JoinShape(segs, SEP);
    assert SEP !in Join(segs, SEP);
  }

  lemma {:induction false} SafeIsNarrow(parts: seq<string>, segs: seq<string>, cover: seq<nat>, cs: Classes)
    requires parts != [] && SafeParts(parts, cs) && Segments(segs) && Spans(parts, segs, cover, cs)
    ensures Narrow(parts, cover)
    decreases |parts|
  {
    if |parts| == 1 {
      assert Segment(segs[|segs| - 1]);
      if parts[0] != "**" { SafePartStaysInside(parts[0], segs, cs); }
    } else {
      var n := cover[0];
      SafeIsNarrow(parts[1..], segs[n..], cover[1..], cs);
      if parts[0] != "**" { SafePartStaysInside(parts[0], segs[..n], cs); }
      forall i | 0 <= i < |parts| && i < |cover| && parts[i] != "**" ensures cover[i] == 1 {
        assert i > 0 ==> parts[i] == parts[1..][i - 1] && cover[i] == cover[1..][i - 1];
      }
    }
  }

  /**
   A path of non-empty segments is accepted exactly when the glob matches segment by segment, if
   no bracket expression accepts a separator.
   */
  lemma {:induction false} AcceptsIffMatches(parts: seq<string>, segs: seq<string>, cs: Classes)
    requires parts != [] && SafeParts(parts, cs) && Segments(segs)
    ensures GlobAccepts(parts, Join(segs, SEP), cs) <==> MatchParts(parts, segs, cs)
  {
    SegmentsArePieces(segs);
    AcceptsIffSpans(parts, segs, cs);
    if cover :| SpannedBy(parts, segs, cover, cs) {
      SafeIsNarrow(parts, segs, cover, cs);
      NarrowMatches(parts, segs, cover, cs);
    }
    if MatchParts(parts, segs, cs) {
      var cover := MatchedIsNarrow(parts, segs, cs);
      assert SpannedBy(parts, segs, cover, cs);
    }
  }

  lemma {:induction false} ExampleTokens()
    ensures Tokens("a[!b]c", 0) == [TChar('a'), TClass("^b"), TChar('c')]
  {
    var p := "a[!b]c";
    assert FindFrom(p, ']', 4) == 4 && FindFrom(p, ']', 3) == 4;
    assert ClassClose(p, 2) == 4;
    assert p[2..4] == "!b";
    ClassBodyOfB();
    assert Tokens(p, 6) == [];
    assert Tokens(p, 5) == [TChar('c')];
    assert Tokens(p, 1) == [TClass("^b")] + Tokens(p, 5);
  }

  lemma {:induction false} ExampleMatches(cs: Classes)
    requires cs("^b", SEP)
    ensures MatchTokens([TChar('a'), TClass("^b"), TChar('c')], "a/c", cs)
  {
    assert MatchTokens([], "", cs);
    Consumes(TChar('c'), [], "c", cs);
    Consumes(TClass("^b"), [TChar('c')], "/c", cs);
    Consumes(TChar('a'), [TClass("^b"), TChar('c')], "a/c", cs);
  }

  lemma {:induction false} ExampleAccepts(cs: Classes)
    requires cs("^b", SEP)
    ensures GlobAccepts(["a[!b]c"], "a/c", cs)
  {
    var p, s := "a[!b]c", "a/c";
    ExampleTokens();
    ExampleMatches(cs);
    assert s[0..3] == s;
    TokensMatch(Tokens(p, 0), s, 0, 3, cs);
    assert Matches(Opt(Sep), s, 3, 3, cs);
    CatIntro(PartRe(p), Opt(Sep), s, 0, 3, 3, cs);
    AcceptsWhole([p], s, cs);
  }

  /** A bracket expression that accepts a separator lets one part reach across two segments. */
  lemma {:induction false} ClassCrossesSegments(cs: Classes)
    requires cs("^b", SEP)
    ensures Segments(["a", "c"]) && !MatchParts(["a[!b]c"], ["a", "c"], cs)
    ensures GlobAccepts(["a[!b]c"], Join(["a", "c"], SEP), cs)
  {
    assert Segment("a") && Segment("c");
    assert ["a", "c"][1..] == ["c"];
    assert Join(["a", "c"], SEP) == "a" + [SEP] + "c" == "a/c";
    ExampleAccepts(cs);
  }

  lemma ClassBodyOfB()
    ensures ClassBody("!b") == "^b"
  {
    assert "!b"[1..] == "b" && "b"[1..] == "";
    assert DoubleBackslashes("b") == "b";
    assert DoubleBackslashes("!b") == "!b";
  }

  lemma Consumes(t: Token, ts: seq<Token>, text: string, cs: Classes)
    requires text != "" && MatchToken(t, text[..1], cs) && MatchTokens(ts, text[1..], cs)
    ensures MatchTokens([t] + ts, text, cs)
  {
    assert ([t] + ts)[1..] == ts;
  }

  // ----- from pattern text to parts -----

  lemma {:induction false} SplitJoined(head: string, tail: string)
    requires head != "" && head[|head| - 1] != SEP && NoSep(tail)
    ensures SplitPath(head + [SEP] + tail) == (head, tail)
  {
    var p := head + [SEP] + tail;
    assert RFind(p) == |head| by {
      var i := RFind(p);
      assert p[|head|] == SEP && forall k :: |head| < k < |p| ==> p[k] == tail[k - |head| - 1];
    }
    assert p[..|head| + 1] == head + [SEP] && p[|head| + 1..] == tail;
    assert !AllSeparators(head + [SEP]) by { assert (head + [SEP])[|head| - 1] == head[|head| - 1]; }
    assert (head + [SEP])[..|head|] == head;
    assert RStripSeparators(head + [SEP]) == RStripSeparators(head) == head;
  }

  lemma {:induction false} JoinEnds(segs: seq<string>)
    requires Segments(segs)
    ensures Join(segs, SEP) != "" && Join(segs, SEP)[|Join(segs, SEP)| - 1] != SEP
    decreases |segs|
  {
    if |segs| > 1 {
      JoinEnds(segs[1..]);
    } else {
      assert Segment(segs[0]);
    }
  }

  /** Splitting a joined pattern gives its parts back. */
  lemma {:induction false} ExplodeJoined(parts: seq<string>)
    requires Segments(parts)
    ensures ExplodePath(Join(parts, SEP)) == parts
    decreases |parts|
  {
    if |parts| == 1 {
      assert Segment(parts[0]);
      assert RFind(parts[0]) == -1;
    } else {
      var front, last := parts[..|parts| - 1], parts[|parts| - 1];
      assert parts == front + [last];
      assert Segment(last) && Segments(front);
      JoinSnoc(front, last, SEP);
      JoinEnds(front);
      SplitJoined(Join(front, SEP), last);
      ExplodeJoined(front);
    }
  }

  /** Every piece but the last one, if it is empty, is left out. */
  function WithoutEmpty(pieces: seq<string>): seq<string> {
    if pieces == [] then []
    else (if pieces[0] == "" then [] else [pieces[0]]) + WithoutEmpty(pieces[1..])
  }

  lemma {:induction false} WithoutEmptyAppend(a: seq<string>, b: seq<string>)
    ensures WithoutEmpty(a + b) == WithoutEmpty(a) + WithoutEmpty(b)
    decreases |a|
  {
    if a == [] {
      assert a + b == b;
    } else {
      WithoutEmptyAppend(a[1..], b);
      assert (a + b)[0] == a[0] && (a + b)[1..] == a[1..] + b;
      var more, rest := WithoutEmpty(a[1..]), WithoutEmpty(b);
      assert [a[0]] + (more + rest) == [a[0]] + more + rest;
    }
  }

  lemma {:induction false} SplitAtLast(head: string, tail: string)
    requires NoSep(tail)
    ensures Split(head + [SEP] + tail, SEP) == Split(head, SEP) + [tail]
  {
    var pieces := Split(head, SEP);
    JoinSplit(head, SEP);
    SplitHasNoSep(head, SEP);
    JoinSnoc(pieces, tail, SEP);
    SplitJoin(pieces + [tail], SEP);
  }

  /** Separators at the end add nothing but empty pieces. */
  lemma {:induction false} StripKeepsPieces(p: string)
    ensures WithoutEmpty(Split(RStripSeparators(p), SEP)) == WithoutEmpty(Split(p, SEP))
    ensures p == "" || p[0] == SEP || (RStripSeparators(p) != "" && RStripSeparators(p)[0] == p[0])
    decreases |p|
  {
    if p != "" && p[|p| - 1] == SEP {
      var front := p[..|p| - 1];
      StripKeepsPieces(front);
      assert p == front + [SEP] + "";
      SplitAtLast(front, "");
      WithoutEmptyAppend(Split(front, SEP), [""]);
      assert WithoutEmpty([""]) == [];
    }
  }

  /** The pieces of a text that starts with no separator: those not empty, and the last one in any case. */
  function PatternPieces(p: string): seq<string> {
    var pieces := Split(p, SEP);
    WithoutEmpty(pieces[..|pieces| - 1]) + [pieces[|pieces| - 1]]
  }

  lemma {:induction false} FindsLast(head: string, tail: string)
    requires NoSep(tail)
    ensures RFind(head + tail) == RFind(head)
    decreases |tail|
  {
    if tail == "" {
      assert head + tail == head;
    } else {
      var front := tail[..|tail| - 1];
      FindsLast(head, front);
      assert (head + tail)[|head + tail| - 1] == tail[|tail| - 1];
      assert (head + tail)[..|head + tail| - 1] == head + front;
    }
  }

  lemma {:induction false} StripAfter(root: string, p: string)
    requires p != "" && p[0] != SEP
    ensures RStripSeparators(root + p) == root + RStripSeparators(p)
    decreases |p|
  {
    assert (root + p)[|root + p| - 1] == p[|p| - 1];
    if p[|p| - 1] == SEP {
      StripAfter(root, p[..|p| - 1]);
      assert (root + p)[..|root + p| - 1] == root + p[..|p| - 1];
    }
  }

  /** The head loses the separators in front of the last piece, unless it has nothing else. */
  lemma {:induction false} SplitPathAt(root: string, front: string, tail: string)
    requires front != "" && front[0] != SEP && NoSep(tail)
    ensures SplitPath(root + (front + [SEP] + tail)) == (root + RStripSeparators(front), tail)
  {
    var head := root + (front + [SEP]);
    var p := root + (front + [SEP] + tail);
    assert p == head + tail;
    FindsLast(head, tail);
    assert RFind(head) == |head| - 1;
    assert p[..|head|] == head && p[|head|..] == tail;
    assert head[|root|] != SEP;
    StripAfter(root, front + [SEP]);
    assert (front + [SEP])[..|front|] == front;
  }

  lemma {:induction false} ExplodeRoot(root: string, name: string)
    requires AllSeparators(root) && NoSep(name)
    ensures ExplodePath(root + name) == (if root != "" then [root] else []) + if root != "" && name == "" then [] else [name]
  {
    FindsLast(root, name);
    assert RFind(root) == |root| - 1;
    assert (root + name)[..|root|] == root && (root + name)[|root|..] == name;
    if root != "" && name != "" {
      assert root[..|root|] == root && root[|root|..] == "";
      assert ExplodePath(root) == [root];
    }
  }

  lemma {:induction false} LastSeparator(p: string) returns (front: string, tail: string)
    requires !NoSep(p)
    ensures p == front + [SEP] + tail && NoSep(tail)
  {
    var i := RFind(p);
    front, tail := p[..i], p[i + 1..];
  }

  /**
   A pattern is exploded into the separators it starts with, if any, and its non-empty pieces;
   only the last piece can be empty.
   */
  lemma {:induction false} ExplodeIsPieces(root: string, p: string)
    requires AllSeparators(root) && (p == "" || p[0] != SEP)
    ensures ExplodePath(root + p) == (if root != "" then [root] else []) + if root != "" && p == "" then [] else PatternPieces(p)
    decreases |p|
  {
    if NoSep(p) {
      ExplodeRoot(root, p);
      SplitJoin([p], SEP);
      assert PatternPieces(p) == [p];
    } else {
      var front, tail := LastSeparator(p);
      SplitPathAt(root, front, tail);
      StripKeepsPieces(front);
      StripEnds(front);
      ExplodeIsPieces(root, RStripSeparators(front));
      PiecesAtLast(front, tail);
      ExplodeMore(root + p, root + RStripSeparators(front), tail);
    }
  }

  lemma {:induction false} PiecesAtLast(front: string, tail: string)
    requires front != "" && front[0] != SEP && NoSep(tail)
    ensures PatternPieces(front + [SEP] + tail) == PatternPieces(RStripSeparators(front)) + [tail]
  {
    StripKeepsPieces(front);
    StripEnds(front);
    LastPieceStays(RStripSeparators(front));
    SplitAtLast(front, tail);
    assert (Split(front, SEP) + [tail])[..|Split(front, SEP)|] == Split(front, SEP);
  }

  lemma {:induction false} ExplodeMore(p: string, head: string, tail: string)
    requires SplitPath(p) == (head, tail) && head != "" && |head| < |p|
    ensures ExplodePath(p) == ExplodePath(head) + [tail]
  {
  }

  lemma {:induction false} StripEnds(p: string)
    ensures RStripSeparators(p) != "" ==> RStripSeparators(p)[|RStripSeparators(p)| - 1] != SEP
    ensures |RStripSeparators(p)| <= |p|
    decreases |p|
  {
    if p != "" && p[|p| - 1] == SEP { StripEnds(p[..|p| - 1]); }
  }

  /** The last piece of a text that does not end in a separator is not empty. */
  lemma {:induction false} LastPieceStays(p: string)
    requires p != "" && p[|p| - 1] != SEP
    ensures PatternPieces(p) == WithoutEmpty(Split(p, SEP))
  {
    var pieces := Split(p, SEP);
    var last := pieces[|pieces| - 1];
    LastPieceEnds(p);
    assert pieces == pieces[..|pieces| - 1] + [last];
    WithoutEmptyAppend(pieces[..|pieces| - 1], [last]);
    assert WithoutEmpty([last]) == [last];
  }

  lemma {:induction false} LastPieceEnds(p: string)
    requires p != "" && p[|p| - 1] != SEP
    ensures Split(p, SEP)[|Split(p, SEP)| - 1] != ""
    decreases |p|
  {
    if |p| > 1 { LastPieceEnds(p[1..]); }
  }

  lemma {:induction false} LiteralTokens(pat: string, i: nat, cs: Classes)
    requires i <= |pat|
    requires forall k :: 0 <= k < |pat| ==> pat[k] != '*' && pat[k] != '?' && pat[k] != '['
    ensures MatchTokens(Tokens(pat, i), pat[i..], cs)
    decreases |pat| - i
  {
    if i < |pat| {
      LiteralTokens(pat, i + 1, cs);
      assert pat[i..][1..] == pat[i + 1..] && pat[i..][..1] == [pat[i]];
      Consumes(TChar(pat[i]), Tokens(pat, i + 1), pat[i..], cs);
    }
  }

  /** Within a part that holds no separator only bracket expressions can be unsafe. */
  predicate SafeClasses(part: string, cs: Classes) {
    forall k :: 0 <= k < |Tokens(part, 0)| && Tokens(part, 0)[k].TClass? ==> !cs(Tokens(part, 0)[k].stuff, SEP)
  }

  lemma {:induction false} LiteralsAreSafe(pat: string, i: nat, k: nat)
    requires NoSep(pat) && k < |Tokens(pat, i)| && Tokens(pat, i)[k].TChar?
    ensures Tokens(pat, i)[k].c != SEP
    decreases |pat| - i
  {
    if k > 0 {
      LiteralsAreSafe(pat, AfterToken(pat, i), k - 1);
    }
  }

  lemma PartsAreSafe(parts: seq<string>, cs: Classes)
    requires Segments(parts) && forall k :: 0 <= k < |parts| ==> SafeClasses(parts[k], cs)
    ensures SafeParts(parts, cs)
  {
    forall k, n | 0 <= k < |parts| && 0 <= n < |Tokens(parts[k], 0)| ensures SafeToken(Tokens(parts[k], 0)[n], cs) {
      assert Segment(parts[k]);
      if Tokens(parts[k], 0)[n].TChar? { LiteralsAreSafe(parts[k], 0, n); }
    }
  }

  // ----- the public entry point -----

  function LStripSeparators(p: string): string {
    if p != "" && p[0] == SEP then LStripSeparators(p[1..]) else p
  }

  /** Paths and patterns are both put below an artificial first segment. */
  function FixPath(p: string): string {
    "start" + [SEP] + LStripSeparators(p)
  }

  ghost predicate GlobMatch(path: string, globs: seq<string>, cs: Classes) {
    exists i :: 0 <= i < |globs| && AcceptsFixed(path, globs[i], cs)
  }

  ghost predicate AcceptsFixed(path: string, glob: string, cs: Classes) {
    ExplodePath(FixPath(glob)) != [] && GlobAccepts(ExplodePath(FixPath(glob)), FixPath(path), cs)
  }

  lemma FixJoined(p: string, segs: seq<string>)
    requires Segments(segs) && LStripSeparators(p) == Join(segs, SEP)
    ensures Segments(["start"] + segs) && FixPath(p) == Join(["start"] + segs, SEP)
  {
    assert Segment("start");
    assert (["start"] + segs)[1..] == segs;
  }

  lemma FixedAccepts(path: string, glob: string, segs: seq<string>, parts: seq<string>, cs: Classes)
    requires Segments(segs) && LStripSeparators(path) == Join(segs, SEP)
    requires Segments(parts) && LStripSeparators(glob) == Join(parts, SEP)
    requires forall k :: 0 <= k < |parts| ==> SafeClasses(parts[k], cs)
    ensures AcceptsFixed(path, glob, cs) <==> MatchParts(parts, segs, cs)
  {
    var parts', segs' := ["start"] + parts, ["start"] + segs;
    FixJoined(path, segs);
    FixJoined(glob, parts);
    ExplodeJoined(parts');
    StartIsSafe(cs);
    PartsAreSafe(parts', cs);
    AcceptsIffMatches(parts', segs', cs);
    StartMatches(parts, segs, cs);
  }

  lemma StartIsSafe(cs: Classes)
    ensures SafeClasses("start", cs)
  {
    forall n | 0 <= n < |Tokens("start", 0)| ensures !Tokens("start", 0)[n].TClass? {
      LiteralHasNoClass("start", 0, n);
    }
  }

  lemma StartMatches(parts: seq<string>, segs: seq<string>, cs: Classes)
    requires parts != []
    ensures MatchParts(["start"] + parts, ["start"] + segs, cs) <==> MatchParts(parts, segs, cs)
  {
    assert "start"[0..] == "start";
    LiteralTokens("start", 0, cs);
    TokensMean("start", 0, "start", cs);
    assert (["start"] + parts)[1..] == parts && (["start"] + segs)[1..] == segs;
  }

  lemma {:induction false} LiteralHasNoClass(pat: string, i: nat, k: nat)
    requires '[' !in pat && k < |Tokens(pat, i)|
    ensures !Tokens(pat, i)[k].TClass?
    decreases |pat| - i
  {
    if k > 0 {
      LiteralHasNoClass(pat, AfterToken(pat, i), k - 1);
    }
  }

  /**
   Matching a path against a list of globs, whatever their texts: true exactly when the pieces of
   the path can be handed out to the pieces of some glob.
   */
  lemma {:induction false} GlobMatchIff(path: string, globs: seq<string>, cs: Classes)
    ensures GlobMatch(path, globs, cs) <==>
      exists i :: 0 <= i < |globs| && MatchSpans(PatternPieces(FixPath(globs[i])), Split(FixPath(path), SEP), cs)
  {
    forall i | 0 <= i < |globs|
      ensures AcceptsFixed(path, globs[i], cs) <==> MatchSpans(PatternPieces(FixPath(globs[i])), Split(FixPath(path), SEP), cs)
    {
      ExplodeIsPieces("", FixPath(globs[i]));
      assert "" + FixPath(globs[i]) == FixPath(globs[i]) && [] + PatternPieces(FixPath(globs[i])) == PatternPieces(FixPath(globs[i]));
      AcceptsText(ExplodePath(FixPath(globs[i])), FixPath(path), cs);
    }
  }

  /**
   For a path and globs of non-empty segments, and bracket expressions that accept no separator,
   this is matching segment by segment.
   */
  lemma {:induction false} GlobMatchSegmentsIff(path: string, globs: seq<string>, segs: seq<string>, parts: seq<seq<string>>, cs: Classes)
    requires Segments(segs) && LStripSeparators(path) == Join(segs, SEP) && |parts| == |globs|
    requires forall i :: 0 <= i < |globs| ==> Segments(parts[i]) && LStripSeparators(globs[i]) == Join(parts[i], SEP)
    requires forall i, k :: 0 <= i < |globs| && 0 <= k < |parts[i]| ==> SafeClasses(parts[i][k], cs)
    ensures GlobMatch(path, globs, cs) <==> exists i ::
      0 <= i < |globs| && parts[i] != [] && MatchParts(parts[i], segs, cs)
  {
    forall i | 0 <= i < |globs| ensures AcceptsFixed(path, globs[i], cs) <==> MatchParts(parts[i], segs, cs) {
      FixedAccepts(path, globs[i], segs, parts[i], cs);
    }
  }
}
