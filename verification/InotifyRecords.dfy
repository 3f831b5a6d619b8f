/**
 The buffer that the kernel hands over: records of four 32-bit little-endian words, the last
 one the length of a NUL-padded name, followed by the name.
 */
module InotifyRecords {
  import opened Common

  type byte = x: int | 0 <= x < 256

  const TWO32 := 0x1_0000_0000

  type word = x: int | 0 <= x < TWO32

  /** What the parser yields for a record. */
  datatype Parsed = Parsed(wd: int, mask: word, cookie: word, name: seq<byte>)

  /** A record as the kernel lays it out: the name is followed by `pad` NUL bytes. */
  datatype Record = Record(wd: int, mask: word, cookie: word, name: seq<byte>, pad: nat)

  predicate Representable(r: Record) {
    -0x8000_0000 <= r.wd < 0x8000_0000 && |r.name| + r.pad < TWO32
  }

  function WordBytes(n: word): (b: seq<byte>)
    ensures |b| == 4
  {
    [n % 256, n / 256 % 256, n / 65536 % 256, n / 16777216]
  }

  function WordAt(b: seq<byte>, i: nat): word
    requires i + 4 <= |b|
  {
    b[i] as int + 256 * (b[i + 1] as int) + 65536 * (b[i + 2] as int) + 16777216 * (b[i + 3] as int)
  }

  /** The first word is signed. */
  function Signed(n: word): int {
    if n < 0x8000_0000 then n else n - TWO32
  }

  function Unsigned(n: int): word
    requires -0x8000_0000 <= n < 0x8000_0000
  {
    if n >= 0 then n else n + TWO32
  }

  function Zeros(n: nat): (z: seq<byte>)
    ensures |z| == n
  {
    seq(n, _ => 0)
  }

  function RStrip(s: seq<byte>): (r: seq<byte>)
    ensures r <= s
    ensures r == [] || r[|r| - 1] != 0
    ensures forall i :: |r| <= i < |s| ==> s[i] == 0
    decreases |s|
  {
    if s != [] && s[|s| - 1] == 0 then RStrip(s[..|s| - 1]) else s
  }

  function Header(r: Record): (h: seq<byte>)
    requires Representable(r)
    ensures |h| == 16
  {
    WordBytes(Unsigned(r.wd)) + WordBytes(r.mask) + WordBytes(r.cookie) + WordBytes(|r.name| + r.pad)
  }

  function Encode(r: Record): seq<byte>
    requires Representable(r)
  {
    Header(r) + r.name + Zeros(r.pad)
  }

  predicate AllRepresentable(rs: seq<Record>) {
    forall i :: 0 <= i < |rs| ==> Representable(rs[i])
  }

  function EncodeAll(rs: seq<Record>): seq<byte>
    requires AllRepresentable(rs)
  {
    if rs == [] then [] else Encode(rs[0]) + EncodeAll(rs[1..])
  }

  function Min(a: int, b: int): int {
    if a < b then a else b
  }

  /** Where the record at position `i` ends; the buffer may end earlier. */
  function EndOf(buffer: seq<byte>, i: nat): (end: nat)
    requires i + 16 <= |buffer|
    ensures i + 16 <= end <= |buffer|
  {
    Min(i + 16 + WordAt(buffer, i + 12), |buffer|)
  }

  function ParsedAt(buffer: seq<byte>, i: nat): Parsed
    requires i + 16 <= |buffer|
  {
    Parsed(Signed(WordAt(buffer, i)), WordAt(buffer, i + 4), WordAt(buffer, i + 8),
           RStrip(buffer[i + 16..EndOf(buffer, i)]))
  }

  function Parse(buffer: seq<byte>): seq<Parsed>
    decreases |buffer|
  {
    if |buffer| < 16 then [] else [ParsedAt(buffer, 0)] + Parse(buffer[EndOf(buffer, 0)..])
  }

  lemma {:induction false} WordShift(buffer: seq<byte>, i: nat, j: nat)
    requires i + j + 4 <= |buffer|
    ensures WordAt(buffer[i..], j) == WordAt(buffer, i + j)
  {
  }

  lemma {:induction false} ParsedShift(buffer: seq<byte>, i: nat)
    requires i + 16 <= |buffer|
    ensures EndOf(buffer[i..], 0) == EndOf(buffer, i) - i
    ensures ParsedAt(buffer[i..], 0) == ParsedAt(buffer, i)
  {
    WordShift(buffer, i, 0);
    WordShift(buffer, i, 4);
    WordShift(buffer, i, 8);
    WordShift(buffer, i, 12);
    assert buffer[i..][16..EndOf(buffer, i) - i] == buffer[i + 16..EndOf(buffer, i)];
  }

  lemma {:induction false} ParseAt(buffer: seq<byte>, i: nat)
    requires i + 16 <= |buffer|
    ensures Parse(buffer[i..]) == [ParsedAt(buffer, i)] + Parse(buffer[EndOf(buffer, i)..])
  {
    ParsedShift(buffer, i);
    var b := buffer[i..];
    assert b[EndOf(b, 0)..] == buffer[EndOf(buffer, i)..];
    assert Parse(b) == [ParsedAt(b, 0)] + Parse(b[EndOf(b, 0)..]);
  }

  /** Unpacks the record at position `i`. */
  method UnpackFrom(buffer: seq<byte>, i: nat) returns (p: Parsed, length: word)
    requires i + 16 <= |buffer|
    ensures p == ParsedAt(buffer, i)
    ensures length == WordAt(buffer, i + 12)
  {
    length := WordAt(buffer, i + 12);
    var name := RStrip(buffer[i + 16..Min(i + 16 + length, |buffer|)]);
    p := Parsed(Signed(WordAt(buffer, i)), WordAt(buffer, i + 4), WordAt(buffer, i + 8), name);
  }

  function ParseFrom(buffer: seq<byte>, i: nat): seq<Parsed>
    decreases |buffer| - i
  {
    if i + 16 > |buffer| then []
    else [ParsedAt(buffer, i)] + ParseFrom(buffer, i + 16 + WordAt(buffer, i + 12))
  }

  lemma {:induction false} ParseFromIsParse(buffer: seq<byte>, i: nat)
    ensures ParseFrom(buffer, i) == Parse(buffer[Min(i, |buffer|)..])
    decreases |buffer| - i
  {
    if i + 16 <= |buffer| {
      var next := i + 16 + WordAt(buffer, i + 12);
      ParseFromIsParse(buffer, next);
      ParseNext(buffer, i, next);
    } else {
      ShortParse(buffer[Min(i, |buffer|)..]);
    }
  }

  lemma {:induction false} ParseNext(buffer: seq<byte>, i: nat, next: nat)
    requires i + 16 <= |buffer| && next == i + 16 + WordAt(buffer, i + 12)
    ensures Parse(buffer[Min(i, |buffer|)..]) == [ParsedAt(buffer, i)] + Parse(buffer[Min(next, |buffer|)..])
    ensures ParseFrom(buffer, i) == [ParsedAt(buffer, i)] + ParseFrom(buffer, next)
  {
    ParseAt(buffer, i);
    assert EndOf(buffer, i) == Min(next, |buffer|) && Min(i, |buffer|) == i;
  }

  lemma {:induction false} ShortParse(buffer: seq<byte>)
    requires |buffer| < 16
    ensures Parse(buffer) == []
  {
  }

  lemma {:induction false} ParseFromStep(buffer: seq<byte>, i: nat, events: seq<Parsed>)
    requires i + 16 <= |buffer|
    ensures events + ParseFrom(buffer, i)
         == events + [ParsedAt(buffer, i)] + ParseFrom(buffer, i + 16 + WordAt(buffer, i + 12))
  {
    Associative(events, [ParsedAt(buffer, i)], ParseFrom(buffer, i + 16 + WordAt(buffer, i + 12)));
  }

  /** The parsing loop; it ends on every buffer because each record advances by at least 16 bytes. */
  method ParseEventBuffer(buffer: seq<byte>) returns (events: seq<Parsed>)
    ensures events == Parse(buffer)
  {
    events := [];
    var i := 0;
    while i + 16 <= |buffer|
      invariant 0 <= i
      invariant ParseFrom(buffer, 0) == events + ParseFrom(buffer, i)
    {
      var event, length := UnpackFrom(buffer, i);
      ParseFromStep(buffer, i, events);
      events := events + [event];
      i := i + 16 + length;
    }
    ParseFromIsParse(buffer, 0);
    assert buffer[0..] == buffer;
  }

  /** Four bytes as one number, the least first. */
  predicate IsWord(bytes: seq<byte>, n: int) {
    |bytes| == 4 && n == (bytes[0] as int) + 0x100 * (bytes[1] as int) + 0x10000 * (bytes[2] as int) + 0x1000000 * (bytes[3] as int)
  }

  /** Where a record has its words and its name, as the header `sys/inotify.h` lays them out. */
  lemma {:induction false} RecordLayout(r: Record)
    requires Representable(r)
    ensures var e := Encode(r);
      && |e| == 16 + |r.name| + r.pad
      && IsWord(e[0..4], if r.wd < 0 then r.wd + 0x1_0000_0000 else r.wd) && IsWord(e[4..8], r.mask)
      && IsWord(e[8..12], r.cookie) && IsWord(e[12..16], |r.name| + r.pad)
      && e[16..16 + |r.name|] == r.name && forall i :: 16 + |r.name| <= i < |e| ==> e[i] == 0
  {
    var e := Encode(r);
    WordIsWord(Unsigned(r.wd));
    WordIsWord(r.mask);
    WordIsWord(r.cookie);
    WordIsWord(|r.name| + r.pad);
    assert e[0..4] == WordBytes(Unsigned(r.wd)) && e[4..8] == WordBytes(r.mask);
    assert e[8..12] == WordBytes(r.cookie) && e[12..16] == WordBytes(|r.name| + r.pad);
    assert e[16..16 + |r.name|] == r.name;
  }

  lemma {:induction false} WordIsWord(n: word)
    ensures IsWord(WordBytes(n), n)
  {
    assert n / 65536 == n / 256 / 256;
    assert n / 16777216 == n / 65536 / 256;
  }

  // ----- decoding an encoded word -----

  lemma {:induction false} WordRoundTrip(n: word)
    ensures WordAt(WordBytes(n), 0) == n
  {
    assert n / 65536 == n / 256 / 256;
    assert n / 16777216 == n / 65536 / 256;
  }

  lemma {:induction false} WordInside(a: seq<byte>, n: word, b: seq<byte>)
    ensures WordAt(a + WordBytes(n) + b, |a|) == n
  {
    WordRoundTrip(n);
    var s := a + WordBytes(n) + b;
    assert s[|a|] == WordBytes(n)[0] && s[|a| + 1] == WordBytes(n)[1];
    assert s[|a| + 2] == WordBytes(n)[2] && s[|a| + 3] == WordBytes(n)[3];
  }

  lemma {:induction false} HeaderWords(r: Record, rest: seq<byte>)
    requires Representable(r)
    ensures var b := Header(r) + rest;
      && Signed(WordAt(b, 0)) == r.wd && WordAt(b, 4) == r.mask && WordAt(b, 8) == r.cookie
      && WordAt(b, 12) == |r.name| + r.pad
  {
    var b := Header(r) + rest;
    var w, m, c, l := WordBytes(Unsigned(r.wd)), WordBytes(r.mask), WordBytes(r.cookie), WordBytes(|r.name| + r.pad);
    assert b == [] + w + (m + c + l + rest);
    WordInside([], Unsigned(r.wd), m + c + l + rest);
    assert b == w + m + (c + l + rest);
    WordInside(w, r.mask, c + l + rest);
    assert b == (w + m) + c + (l + rest);
    WordInside(w + m, r.cookie, l + rest);
    assert b == (w + m + c) + l + rest;
    WordInside(w + m + c, |r.name| + r.pad, rest);
  }

  lemma {:induction false} RStripPadded(name: seq<byte>, pad: nat)
    ensures RStrip(name + Zeros(pad)) == RStrip(name)
    decreases pad
  {
    if pad == 0 {
      assert name + Zeros(pad) == name;
    } else {
      assert (name + Zeros(pad))[..|name| + pad - 1] == name + Zeros(pad - 1);
      RStripPadded(name, pad - 1);
    }
  }

  function Yield(r: Record): Parsed {
    Parsed(r.wd, r.mask, r.cookie, RStrip(r.name))
  }

  function Yields(rs: seq<Record>): (ps: seq<Parsed>)
    ensures |ps| == |rs|
  {
    seq(|rs|, i requires 0 <= i < |rs| => Yield(rs[i]))
  }

  lemma {:induction false} ParseFirst(r: Record, tail: seq<byte>)
    requires Representable(r)
    ensures Parse(Encode(r) + tail) == [Yield(r)] + Parse(tail)
  {
    var body := r.name + Zeros(r.pad);
    var b := Encode(r) + tail;
    assert b == Header(r) + (body + tail);
    HeaderWords(r, body + tail);
    assert b[16..16 + |body|] == body && b[16 + |body|..] == tail;
    RStripPadded(r.name, r.pad);
  }

  lemma {:induction false} EncodeAllCons(rs: seq<Record>, tail: seq<byte>)
    requires rs != [] && AllRepresentable(rs)
    ensures EncodeAll(rs) + tail == Encode(rs[0]) + (EncodeAll(rs[1..]) + tail)
  {
  }

  /** Complete records at the front are parsed one by one, whatever follows. */
  lemma {:induction false} ParsePrefix(rs: seq<Record>, tail: seq<byte>)
    requires AllRepresentable(rs)
    ensures Parse(EncodeAll(rs) + tail) == Yields(rs) + Parse(tail)
    decreases |rs|
  {
    if rs == [] {
      assert EncodeAll(rs) + tail == tail;
    } else {
      var more := EncodeAll(rs[1..]) + tail;
      calc {
        Parse(EncodeAll(rs) + tail);
      == { EncodeAllCons(rs, tail); }
        Parse(Encode(rs[0]) + more);
      == { ParseFirst(rs[0], more); }
        [Yield(rs[0])] + Parse(more);
      == { ParsePrefix(rs[1..], tail); }
        [Yield(rs[0])] + (Yields(rs[1..]) + Parse(tail));
      == { assert Yields(rs) == [Yield(rs[0])] + Yields(rs[1..]); }
        Yields(rs) + Parse(tail);
      }
    }
  }

  lemma {:induction false} ParseTruncated(r: Record, kept: nat)
    requires Representable(r) && 16 <= kept <= |Encode(r)|
    ensures Parse(Encode(r)[..kept]) ==
      [Parsed(r.wd, r.mask, r.cookie, RStrip((r.name + Zeros(r.pad))[..kept - 16]))]
  {
    var b := Encode(r)[..kept];
    var body := (r.name + Zeros(r.pad))[..kept - 16];
    assert b == Header(r) + body;
    HeaderWords(r, body);
    assert b[16..kept] == body && b[kept..] == [];
  }

  // ----- the theorems -----

  /**
   Parsing what remains of an encoded list after a cut: every record that is complete, then,
   if its header is complete, one more whose name is what is left of it.
   */
  lemma {:induction false} ParseCut(rs: seq<Record>, last: Record, kept: nat)
    requires AllRepresentable(rs) && Representable(last)
    requires kept < |Encode(last)|
    ensures Parse(EncodeAll(rs) + Encode(last)[..kept]) ==
      Yields(rs) + if kept < 16 then []
                   else [Parsed(last.wd, last.mask, last.cookie, RStrip((last.name + Zeros(last.pad))[..kept - 16]))]
  {
    ParsePrefix(rs, Encode(last)[..kept]);
    if kept >= 16 {
      ParseTruncated(last, kept);
    }
  }

  /** The round trip gives every record back exactly when no name ends with a NUL byte. */
  lemma {:induction false} RoundTripIff(rs: seq<Record>)
    requires AllRepresentable(rs)
    ensures (|Parse(EncodeAll(rs))| == |rs| && forall i :: 0 <= i < |rs| ==>
               Parse(EncodeAll(rs))[i] == Parsed(rs[i].wd, rs[i].mask, rs[i].cookie, rs[i].name))
      <==> forall i :: 0 <= i < |rs| ==> rs[i].name == [] || rs[i].name[|rs[i].name| - 1] != 0
  {
    ParsePrefix(rs, []);
    assert EncodeAll(rs) + [] == EncodeAll(rs);
    forall i | 0 <= i < |rs|
      ensures RStrip(rs[i].name) == rs[i].name <==> rs[i].name == [] || rs[i].name[|rs[i].name| - 1] != 0
    {
    }
    assert forall i :: 0 <= i < |rs| ==> Yields(rs)[i] == Parsed(rs[i].wd, rs[i].mask, rs[i].cookie, RStrip(rs[i].name));
  }
}
