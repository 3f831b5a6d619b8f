/** Text split at a separator, and joined again. */
module Texts {

  const SEP := '/'

  function Split(s: string, sep: char): (parts: seq<string>)
    ensures parts != []
  {
    if s == "" then [""]
    else
      var rest := Split(s[1..], sep);
      if s[0] == sep then [""] + rest else [[s[0]] + rest[0]] + rest[1..]
  }

  function Join(parts: seq<string>, sep: char): string {
    if parts == [] then "" else if |parts| == 1 then parts[0] else parts[0] + [sep] + Join(parts[1..], sep)
  }

  /** Replacement of a non-empty text, leftmost first, without overlaps. */
  function ReplaceText(s: string, old_: string, new_: string): string
    requires old_ != ""
    decreases |s|
  {
    if |s| < |old_| then s
    else if s[..|old_|] == old_ then new_ + ReplaceText(s[|old_|..], old_, new_)
    else [s[0]] + ReplaceText(s[1..], old_, new_)
  }

  /** `os.path.join` of two on POSIX. */
  function PathJoin(dir: string, name: string): string {
    if name != "" && name[0] == SEP then name
    else if dir == "" || dir[|dir| - 1] == SEP then dir + name
    else dir + [SEP] + name
  }

  predicate Plain(part: string, sep: char) {
    part != "" && sep !in part
  }

  predicate AllPlain(parts: seq<string>, sep: char) {
    forall i :: 0 <= i < |parts| ==> Plain(parts[i], sep)
  }

  lemma {:induction false} SplitHasNoSep(s: string, sep: char)
    ensures forall i :: 0 <= i < |Split(s, sep)| ==> sep !in Split(s, sep)[i]
    decreases |s|
  {
    if s != "" {
      SplitHasNoSep(s[1..], sep);
    }
  }

  lemma {:induction false} JoinSplit(s: string, sep: char)
    ensures Join(Split(s, sep), sep) == s
    decreases |s|
  {
    if s != "" {
      JoinSplit(s[1..], sep);
      var rest := Split(s[1..], sep);
      assert s == [s[0]] + s[1..];
      if s[0] == sep {
        assert ([""] + rest)[1..] == rest;
      } else {
        assert ([[s[0]] + rest[0]] + rest[1..])[1..] == rest[1..];
      }
    }
  }

  lemma {:induction false} SplitPrefixed(a: string, s: string, sep: char)
    requires sep !in a
    ensures Split(a + s, sep) == [a + Split(s, sep)[0]] + Split(s, sep)[1..]
    decreases |a|
  {
    if a == "" {
      assert a + s == s && a + Split(s, sep)[0] == Split(s, sep)[0];
    } else {
      SplitPrefixed(a[1..], s, sep);
      assert (a + s)[1..] == a[1..] + s;
      assert [a[0]] + (a[1..] + Split(s, sep)[0]) == a + Split(s, sep)[0];
    }
  }

  /** Parts without the separator come apart as they were joined. */
  lemma {:induction false} SplitJoin(parts: seq<string>, sep: char)
    requires parts != [] && forall i :: 0 <= i < |parts| ==> sep !in parts[i]
    ensures Split(Join(parts, sep), sep) == parts
    decreases |parts|
  {
    if |parts| == 1 {
      SplitPrefixed(parts[0], "", sep);
      assert parts[0] + "" == parts[0];
    } else {
      var rest := [sep] + Join(parts[1..], sep);
      SplitJoin(parts[1..], sep);
      SplitPrefixed(parts[0], rest, sep);
      assert rest[1..] == Join(parts[1..], sep);
      assert Split(rest, sep) == [""] + parts[1..];
      assert parts[0] + rest == Join(parts, sep);
      assert parts[0] + "" == parts[0];
    }
  }

  lemma {:induction false} SplitChars(s: string, sep: char)
    ensures forall i, c :: 0 <= i < |Split(s, sep)| && c in Split(s, sep)[i] ==> c in s
    decreases |s|
  {
    if s != "" {
      SplitChars(s[1..], sep);
      assert forall c :: c in s[1..] ==> c in s;
    }
  }

  lemma {:induction false} JoinShape(parts: seq<string>, sep: char)
    requires AllPlain(parts, sep)
    ensures Join(parts, sep) == "" <==> parts == []
    ensures sep in Join(parts, sep) <==> |parts| > 1
  {
    if parts != [] { assert Plain(parts[0], sep); }
    if |parts| > 1 { assert Join(parts, sep)[|parts[0]|] == sep; }
  }

  lemma {:induction false} JoinSnoc(front: seq<string>, last: string, sep: char)
    requires front != []
    ensures Join(front + [last], sep) == Join(front, sep) + [sep] + last
    decreases |front|
  {
    if |front| > 1 {
      JoinSnoc(front[1..], last, sep);
      assert (front + [last])[1..] == front[1..] + [last];
    } else {
      assert (front + [last])[1..] == [last];
    }
  }
}
