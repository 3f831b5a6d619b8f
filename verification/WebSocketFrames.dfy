/**
 Reading and writing WebSocket frames: length forms, masks, and what the reader hands over.
 Payload text is its bytes.
 */
module WebSocketFrames {
  import opened Common

  type Byte = bv8
  type Bytes = seq<Byte>

  const FIN: Byte := 0x80
  const OPCODE: Byte := 0x0f
  const MASKED: Byte := 0x80
  const PAYLOAD_LEN: Byte := 0x7f

  const OPCODE_CONTINUATION: Byte := 0x0
  const OPCODE_TEXT: Byte := 0x1
  const OPCODE_BINARY: Byte := 0x2
  const OPCODE_CLOSE_CONN: Byte := 0x8
  const OPCODE_PING: Byte := 0x9
  const OPCODE_PONG: Byte := 0xA

  // ----- numbers in network order -----

  function Power(k: nat): (p: nat)
    ensures p > 0
  {
    if k == 0 then 1 else 256 * Power(k - 1)
  }

  lemma NextByte(b: Byte)
    requires b != 255
    ensures (b + 1) as int == b as int + 1
  {
  }

  /** The byte of a value, by counting up to it. */
  function ByteOf(n: nat): (b: Byte)
    requires n < 256
    ensures b as int == n
  {
    if n == 0 then 0
    else
      NextByte(ByteOf(n - 1));
      ByteOf(n - 1) + 1
  }

  /** `struct.pack`, in k bytes. */
  function Pack(n: nat, k: nat): (bytes: Bytes)
    ensures |bytes| == k
    decreases k
  {
    if k == 0 then [] else Pack(n / 256, k - 1) + [ByteOf(n % 256)]
  }

  /** `struct.unpack` */
  function Unpack(bytes: Bytes): nat
    decreases |bytes|
  {
    if bytes == [] then 0 else 256 * Unpack(bytes[..|bytes| - 1]) + bytes[|bytes| - 1] as int
  }

  lemma Quotient(n: nat, p: nat)
    requires n < 256 * p
    ensures n / 256 < p && n == 256 * (n / 256) + n % 256
  {
  }

  lemma {:induction false} PackUnpack(n: nat, k: nat)
    requires n < Power(k)
    ensures Unpack(Pack(n, k)) == n
    decreases k
  {
    if k > 0 {
      var bytes := Pack(n, k);
      Quotient(n, Power(k - 1));
      PackUnpack(n / 256, k - 1);
      assert bytes[..k - 1] == Pack(n / 256, k - 1);
    }
  }

  lemma {:induction false} UnpackBound(bytes: Bytes)
    ensures Unpack(bytes) < Power(|bytes|)
    decreases |bytes|
  {
    if bytes != [] { UnpackBound(bytes[..|bytes| - 1]); }
  }

  /** The most significant byte comes first. */
  lemma {:induction false} NetworkOrder(bytes: Bytes)
    requires bytes != []
    ensures Unpack(bytes) == bytes[0] as int * Power(|bytes| - 1) + Unpack(bytes[1..])
    decreases |bytes|
  {
    var n := |bytes| - 1;
    var front := bytes[..n];
    if n > 0 {
      NetworkOrder(front);
      assert front[1..] == bytes[1..][..n - 1];
      Shifted(bytes[0] as int, Power(n - 1), Unpack(front[1..]), bytes[n] as int);
      assert Unpack(bytes[1..]) == 256 * Unpack(front[1..]) + bytes[n] as int;
    } else {
      assert Unpack(front) == 0 && Unpack(bytes[1..]) == 0 && Power(0) == 1;
    }
  }

  lemma Shifted(first: nat, p: nat, rest: nat, last: nat)
    ensures 256 * (first * p + rest) + last == first * (256 * p) + (256 * rest + last)
  {
    assert 256 * (first * p) == first * (256 * p);
  }

  // ----- masks -----

  /** Every byte combined with the mask byte at its place, round and round. */
  function Masking(payload: Bytes, masks: Bytes): (r: Bytes)
    requires |masks| == 4 || payload == []
    ensures |r| == |payload| && forall i :: 0 <= i < |r| ==> r[i] == payload[i] ^ masks[i % 4]
  {
    seq(|payload|, i requires 0 <= i < |payload| => payload[i] ^ masks[i % 4])
  }

  lemma {:induction false} XorTwice(b: Byte, m: Byte)
    ensures (b ^ m) ^ m == b
  {
  }

  /** Masking again with the same mask gives the payload back (section 5.3 of RFC 6455). */
  lemma {:induction false} MaskingTwice(payload: Bytes, masks: Bytes)
    requires |masks| == 4
    ensures Masking(Masking(payload, masks), masks) == payload
  {
    var twice := Masking(Masking(payload, masks), masks);
    forall i | 0 <= i < |payload| ensures twice[i] == payload[i] {
      XorTwice(payload[i], masks[i % 4]);
    }
  }

  // ----- the reader -----

  datatype Kind = Text | Ping | Pong

  datatype Message = Message(kind: Kind, payload: Bytes)

  /** The bytes still to come, whether the connection goes on, what was handed over, and an exception if one got out. */
  datatype Reader = Reader(input: Bytes, keepAlive: bool, messages: seq<Message>, raised: bool)

  /** `read(num)` gives less only at the end of the stream. */
  function Least(m: nat, n: nat): nat {
    if m < n then m else n
  }

  function KindOf(opcode: Byte): Option<Kind> {
    if opcode == OPCODE_TEXT then Some(Text)
    else if opcode == OPCODE_PING then Some(Ping)
    else if opcode == OPCODE_PONG then Some(Pong)
    else None
  }

  /** How many bytes of extended length follow a second byte. */
  function Extended(b2: Byte): nat {
    if b2 & PAYLOAD_LEN == 126 then 2 else if b2 & PAYLOAD_LEN == 127 then 8 else 0
  }

  function PayloadLength(b2: Byte, extended: Bytes): nat {
    if Extended(b2) == 0 then (b2 & PAYLOAD_LEN) as int else Unpack(extended)
  }

  /** The mask and the payload, as far as they are there. */
  function ReadPayload(r: Reader, kind: Kind, length: nat): Reader {
    var m := Least(4, |r.input|);
    var masks, rest := r.input[..m], r.input[m..];
    var n := Least(length, |rest|);
    assert m < 4 ==> rest == [];
    r.(input := rest[n..], messages := r.messages + [Message(kind, Masking(rest[..n], masks))])
  }

  /** One frame. Too few bytes for a header count as two zero bytes, too few for an extended length raise. */
  function ReadOne(r: Reader): Reader {
    if |r.input| < 2 then r.(input := [], keepAlive := false)
    else
      var b1, b2, rest := r.input[0], r.input[1], r.input[2..];
      var opcode := b1 & OPCODE;
      if opcode == OPCODE_CLOSE_CONN || b2 & MASKED == 0 then r.(input := rest, keepAlive := false)
      else if opcode == OPCODE_CONTINUATION || opcode == OPCODE_BINARY then r.(input := rest)
      else if KindOf(opcode).None? then r.(input := rest, keepAlive := false)
      else
        var k := Extended(b2);
        if |rest| < k then r.(input := [], raised := true)
        else ReadPayload(r.(input := rest[k..]), KindOf(opcode).value, PayloadLength(b2, rest[..k]))
  }

  datatype Fault = NoFault | ConnectionReset | OtherError

  class WebSocketHandler {
    var rfile: Bytes
    var keepAlive: bool
    var messages: seq<Message>
    var raised: bool

    function State(): Reader
      reads this
    {
      Reader(rfile, keepAlive, messages, raised)
    }

    constructor (rfile: Bytes)
      ensures State() == Reader(rfile, true, [], false)
    {
      this.rfile, keepAlive, messages, raised := rfile, true, [], false;
    }

    method ReadBytes(num: nat) returns (bytes: Bytes)
      modifies this`rfile
      ensures bytes == old(rfile)[..Least(num, |old(rfile)|)] && rfile == old(rfile)[Least(num, |old(rfile)|)..]
    {
      var n := Least(num, |rfile|);
      bytes := rfile[..n];
      rfile := rfile[n..];
    }

    /** A fault is one of reading the first two bytes; then none are there. */
    method ReadNextMessage(fault: Fault)
      requires !raised
      modifies this
      ensures fault == NoFault ==> State() == ReadOne(old(State()))
      ensures fault != NoFault ==> State() == old(State()).(keepAlive := false)
    {
      var b1: Byte, b2: Byte := 0, 0;
      if fault == ConnectionReset {
        keepAlive := false;
        return;
      }
      if fault == NoFault {
        var head := ReadBytes(2);
        if |head| == 2 {
          b1, b2 := head[0], head[1];
        }
      }
      ghost var rest := rfile;
      var opcode := b1 & OPCODE;
      if opcode == OPCODE_CLOSE_CONN {
        keepAlive := false;
        return;
      }
      if b2 & MASKED == 0 {
        keepAlive := false;
        return;
      }
      if opcode == OPCODE_CONTINUATION || opcode == OPCODE_BINARY {
        return;
      }
      var kind := KindOf(opcode);
      if kind.None? {
        keepAlive := false;
        return;
      }
      var length := ReadLength(b2);
      if length.None? {
        raised := true;
        return;
      }
      ReadMessage(kind.value, length.value);
    }

    /** The seven bits, or the two or eight bytes that follow; too few of them are an error. */
    method ReadLength(b2: Byte) returns (length: Option<nat>)
      modifies this`rfile
      ensures var k := Extended(b2);
        if |old(rfile)| < k then length == None && rfile == []
        else length == Some(PayloadLength(b2, old(rfile)[..k])) && rfile == old(rfile)[k..]
    {
      var length7 := b2 & PAYLOAD_LEN;
      if length7 == 126 {
        var bytes := ReadBytes(2);
        if |bytes| < 2 { return None; }
        return Some(Unpack(bytes));
      } else if length7 == 127 {
        var bytes := ReadBytes(8);
        if |bytes| < 8 { return None; }
        return Some(Unpack(bytes));
      } else {
        return Some(length7 as int);
      }
    }

    /** Reads the mask and the payload, unmasks and hands over. */
    method ReadMessage(kind: Kind, length: nat)
      modifies this`rfile, this`messages
      ensures State() == ReadPayload(old(State()), kind, length)
    {
      var masks := ReadBytes(4);
      var bytes := ReadBytes(length);
      var message := Unmask(bytes, masks);
      messages := messages + [Message(kind, message)];
    }
  }

  /** Byte by byte. */
  method Unmask(bytes: Bytes, masks: Bytes) returns (message: Bytes)
    requires |masks| == 4 || bytes == []
    ensures message == Masking(bytes, masks)
  {
    message := [];
    for i := 0 to |bytes|
      invariant message == Masking(bytes, masks)[..i]
    {
      message := message + [bytes[i] ^ masks[|message| % 4]];
    }
  }

  // ----- frames -----

  datatype Form = Short | Extended16 | Extended64

  predicate Fits(form: Form, n: nat) {
    match form case Short => n <= 125 case Extended16 => n < 65536 case Extended64 => n < 0x1_0000_0000_0000_0000
  }

  /** The seven bits of the second byte. */
  function LengthBits(form: Form, n: nat): Byte
    requires Fits(form, n)
  {
    match form case Short => ByteOf(n) case Extended16 => 126 case Extended64 => 127
  }

  function LengthBytes(form: Form, n: nat): Bytes {
    match form case Short => [] case Extended16 => Pack(n, 2) case Extended64 => Pack(n, 8)
  }

  function OpcodeOf(kind: Kind): Byte {
    match kind case Text => OPCODE_TEXT case Ping => OPCODE_PING case Pong => OPCODE_PONG
  }

  /** A client's frame; the upper half of the first byte is free, and so is the form of the length. */
  datatype Frame = Frame(flags: Byte, kind: Kind, form: Form, masks: Bytes, payload: Bytes)

  predicate ValidFrame(f: Frame) {
    |f.masks| == 4 && Fits(f.form, |f.payload|)
  }

  function Head(f: Frame): Bytes
    requires ValidFrame(f)
  {
    [(f.flags & 0xf0) | OpcodeOf(f.kind), MASKED | LengthBits(f.form, |f.payload|)] + LengthBytes(f.form, |f.payload|)
  }

  function Encode(f: Frame): Bytes
    requires ValidFrame(f)
  {
    Head(f) + f.masks + Masking(f.payload, f.masks)
  }

  lemma PowerValues()
    ensures Power(2) == 65536 && Power(8) == 0x1_0000_0000_0000_0000
  {
    assert Power(1) == 256;
    assert Power(2) == 65536;
    assert Power(3) == 0x100_0000;
    assert Power(4) == 0x1_0000_0000;
    assert Power(5) == 0x100_0000_0000;
    assert Power(6) == 0x1_0000_0000_0000;
    assert Power(7) == 0x100_0000_0000_0000;
  }

  /** A length in any form that can hold it reads back as it was. */
  lemma {:induction false} LengthReadsBack(form: Form, n: nat, bit: Byte)
    requires Fits(form, n) && (bit == 0 || bit == MASKED)
    ensures var b2 := bit | LengthBits(form, n);
      && b2 & MASKED == bit
      && Extended(b2) == |LengthBytes(form, n)| && PayloadLength(b2, LengthBytes(form, n)) == n
  {
    var bits := LengthBits(form, n);
    PowerValues();
    match form
    case Short =>
      SmallByte(n);
      SevenBits(bits, bit);
    case Extended16 =>
      PackUnpack(n, 2);
      SevenBits(126, bit);
    case Extended64 =>
      PackUnpack(n, 8);
      SevenBits(127, bit);
  }

  lemma SevenBits(bits: Byte, bit: Byte)
    requires bits < 128 && (bit == 0 || bit == MASKED)
    ensures (bit | bits) & PAYLOAD_LEN == bits && (bit | bits) & MASKED == bit
  {
  }

  lemma SmallByte(n: nat)
    requires n <= 125
    ensures ByteOf(n) < 126
  {
  }

  lemma OpcodeBits(flags: Byte, kind: Kind)
    ensures ((flags & 0xf0) | OpcodeOf(kind)) & OPCODE == OpcodeOf(kind)
    ensures KindOf(OpcodeOf(kind)) == Some(kind)
  {
  }

  lemma {:induction false} HeadReads(f: Frame)
    requires ValidFrame(f)
    ensures Head(f)[0] & OPCODE == OpcodeOf(f.kind) && KindOf(OpcodeOf(f.kind)) == Some(f.kind)
    ensures Head(f)[1] & MASKED != 0 && |Head(f)| == 2 + Extended(Head(f)[1])
    ensures PayloadLength(Head(f)[1], Head(f)[2..]) == |f.payload|
  {
    OpcodeBits(f.flags, f.kind);
    LengthReadsBack(f.form, |f.payload|, MASKED);
    assert Head(f)[2..] == LengthBytes(f.form, |f.payload|);
  }

  // ----- reading what was encoded -----

  lemma {:induction false} ReadHead(f: Frame, tail: Bytes, r: Reader)
    requires ValidFrame(f) && r.input == Head(f) + tail
    ensures ReadOne(r) == ReadPayload(r.(input := tail), f.kind, |f.payload|)
  {
    HeadReads(f);
    var k := Extended(Head(f)[1]);
    var rest := r.input[2..];
    assert rest[..k] == Head(f)[2..] && rest[k..] == tail;
  }

  /** Cutting two parts off what comes after. */
  lemma CutParts<T>(a: seq<T>, b: seq<T>, rest: seq<T>, j: nat)
    requires |a| <= j <= |a| + |b|
    ensures var s := (a + b)[..j] + rest;
      && |s| == j + |rest| && s[..|a|] == a && s[|a|..] == b[..j - |a|] + rest
      && s[|a|..][..j - |a|] == b[..j - |a|] && s[|a|..][j - |a|..] == rest
  {
    var s := (a + b)[..j] + rest;
    assert forall i :: 0 <= i < |a| ==> s[i] == a[i];
    assert forall i :: 0 <= i < j - |a| ==> s[|a| + i] == b[i];
    assert forall i :: 0 <= i < |rest| ==> s[j + i] == rest[i];
  }

  /** Masking a beginning of the masked payload gives that beginning of the payload. */
  lemma {:induction false} MaskingCut(payload: Bytes, masks: Bytes, n: nat)
    requires |masks| == 4 && n <= |payload|
    ensures Masking(Masking(payload, masks)[..n], masks) == payload[..n]
  {
    var back := Masking(Masking(payload, masks)[..n], masks);
    MaskingTwice(payload, masks);
    forall i | 0 <= i < n ensures back[i] == payload[i] {
      assert Masking(Masking(payload, masks), masks)[i] == back[i];
    }
  }

  /** However many bytes of mask and payload are there, the payload up to that point is handed over. */
  lemma {:induction false} ReadTail(f: Frame, j: nat, rest: Bytes, r: Reader)
    requires ValidFrame(f) && j <= 4 + |f.payload| && (j < 4 + |f.payload| ==> rest == [])
    requires r.input == (f.masks + Masking(f.payload, f.masks))[..j] + rest
    ensures ReadPayload(r, f.kind, |f.payload|) ==
      r.(input := rest, messages := r.messages + [Message(f.kind, f.payload[..if j < 4 then 0 else j - 4])])
  {
    if j < 4 {
      assert r.input[|r.input|..] == [] && f.payload[..0] == [];
    } else {
      CutParts(f.masks, Masking(f.payload, f.masks), rest, j);
      MaskingCut(f.payload, f.masks, j - 4);
      assert Least(4, |r.input|) == 4 && Least(|f.payload|, |r.input[4..]|) == j - 4;
    }
  }

  lemma Regroup<T>(a: seq<T>, b: seq<T>, c: seq<T>, d: seq<T>)
    ensures a + b + c + d == a + (b + c + d)
  {
  }

  lemma TakeAll<T>(s: seq<T>)
    ensures s[..|s|] == s
  {
  }

  /** One frame is consumed whole, and its payload handed over. */
  lemma {:induction false} ReadFrame(f: Frame, rest: Bytes, r: Reader)
    requires ValidFrame(f) && r.input == Encode(f) + rest
    ensures ReadOne(r) == r.(input := rest, messages := r.messages + [Message(f.kind, f.payload)])
  {
    var masked := Masking(f.payload, f.masks);
    var tail := f.masks + masked + rest;
    Regroup(Head(f), f.masks, masked, rest);
    ReadHead(f, tail, r);
    TakeAll(f.masks + masked);
    TakeAll(f.payload);
    ReadTail(f, 4 + |f.payload|, rest, r.(input := tail));
  }

  function EncodeAll(frames: seq<Frame>): Bytes
    requires forall i :: 0 <= i < |frames| ==> ValidFrame(frames[i])
  {
    if frames == [] then [] else Encode(frames[0]) + EncodeAll(frames[1..])
  }

  function MessagesOf(frames: seq<Frame>): seq<Message> {
    if frames == [] then [] else [Message(frames[0].kind, frames[0].payload)] + MessagesOf(frames[1..])
  }

  function ReadMany(r: Reader, n: nat): Reader
    decreases n
  {
    if n == 0 then r else ReadMany(ReadOne(r), n - 1)
  }

  /**
   For any list of masked text, ping and pong frames, in any length forms, reading the bytes one
   after the other consumes exactly the frames and hands over their payloads in order.
   */
  lemma {:induction false} ReadFrames(frames: seq<Frame>, rest: Bytes, r: Reader)
    requires forall i :: 0 <= i < |frames| ==> ValidFrame(frames[i])
    requires r.input == EncodeAll(frames) + rest
    ensures ReadMany(r, |frames|) == r.(input := rest, messages := r.messages + MessagesOf(frames))
    decreases |frames|
  {
    if frames == [] {
      assert r.input == rest && r.messages + [] == r.messages;
    } else {
      var f, more := frames[0], EncodeAll(frames[1..]) + rest;
      Associative(Encode(f), EncodeAll(frames[1..]), rest);
      ReadFrame(f, more, r);
      ReadFrames(frames[1..], rest, ReadOne(r));
      Associative(r.messages, [Message(f.kind, f.payload)], MessagesOf(frames[1..]));
    }
  }

  lemma CutAfter<T>(a: seq<T>, b: seq<T>, n: nat)
    requires |a| <= n <= |a| + |b|
    ensures (a + b)[..n] == a + b[..n - |a|]
  {
  }

  /**
   A frame cut short by the end of the stream closes the connection, raises, or, once the length
   is there, hands over the part of the payload that came as if it were all.
   */
  lemma {:induction false} CutFrame(f: Frame, n: nat, r: Reader)
    requires ValidFrame(f) && n < |Encode(f)| && r.input == Encode(f)[..n]
    ensures n < 2 ==> ReadOne(r) == r.(input := [], keepAlive := false)
    ensures 2 <= n < |Head(f)| ==> ReadOne(r) == r.(input := [], raised := true)
    ensures n >= |Head(f)| ==>
      var came := f.payload[..if n < |Head(f)| + 4 then 0 else n - |Head(f)| - 4];
      ReadOne(r) == r.(input := [], messages := r.messages + [Message(f.kind, came)])
  {
    HeadReads(f);
    if n >= |Head(f)| {
      var j := n - |Head(f)|;
      var body := f.masks + Masking(f.payload, f.masks);
      Associative(Head(f), f.masks, Masking(f.payload, f.masks));
      CutAfter(Head(f), body, n);
      ReadHead(f, body[..j], r);
      assert body[..j] + [] == body[..j];
      ReadTail(f, j, [], r.(input := body[..j]));
    } else if n >= 2 {
      assert r.input[0] == Head(f)[0] && r.input[1] == Head(f)[1];
    }
  }

  /** What is not a text, ping or pong frame of a client hands nothing over; two opcodes are passed over with their header. */
  lemma {:induction false} OtherFrames(r: Reader)
    requires |r.input| >= 2
    ensures var opcode, masked := r.input[0] & 0x0f, r.input[1] & 0x80 == 0x80;
      var passed, known := opcode == 0 || opcode == 2, opcode == 1 || opcode == 9 || opcode == 10;
      && (masked && passed ==> ReadOne(r) == r.(input := r.input[2..]))
      && (!masked || (!passed && !known) ==> ReadOne(r) == r.(input := r.input[2..], keepAlive := false))
  {
  }

  /** The first two bytes of a client's frame, as section 5.2 of RFC 6455 numbers the kinds. */
  lemma {:induction false} WireOpcodes(f: Frame)
    requires ValidFrame(f)
    ensures Encode(f)[0] & 0x0f == (match f.kind case Text => 1 case Ping => 9 case Pong => 10)
    ensures Encode(f)[1] & 0x80 == 0x80
  {
    HeadReads(f);
    LengthReadsBack(f.form, |f.payload|, MASKED);
  }

  // ----- sending -----

  /** The header `send_text` builds; none for a payload of 2^64 bytes or more. */
  method HeaderFor(length: nat, opcode: Byte) returns (header: Option<Bytes>)
    ensures header == if Fits(Extended64, length) then Some(SentHead(opcode, length)) else None
  {
    var bytes: Bytes := [FIN | opcode];
    if length <= 125 {
      bytes := bytes + [ByteOf(length)];
    } else if length >= 126 && length <= 65535 {
      bytes := bytes + [126];
      bytes := bytes + Pack(length, 2);
    } else if length < 18446744073709551616 {
      bytes := bytes + [127];
      bytes := bytes + Pack(length, 8);
    } else {
      return None;
    }
    assert bytes == SentHead(opcode, length);
    return Some(bytes);
  }

  method SendText(payload: Bytes, opcode: Byte := OPCODE_TEXT) returns (sent: Option<Bytes>)
    ensures sent == if Fits(Extended64, |payload|) then Some(SentHead(opcode, |payload|) + payload) else None
  {
    var header := HeaderFor(|payload|, opcode);
    sent := if header.Some? then Some(header.value + payload) else None;
  }

  /** A text message goes out as one final text frame. */
  method SendMessage(message: Bytes) returns (sent: Option<Bytes>)
    ensures sent.None? <==> |message| >= 0x1_0000_0000_0000_0000
    ensures sent.Some? ==> sent.value == SentHead(OPCODE_TEXT, |message|) + message && sent.value[0] == 0x81
  {
    sent := SendText(message);
    if sent.Some? { SentFirstByte(OPCODE_TEXT, |message|); }
  }

  method SendPong(message: Bytes) returns (sent: Option<Bytes>)
    ensures sent.None? <==> |message| >= 0x1_0000_0000_0000_0000
    ensures sent.Some? ==> sent.value == SentHead(OPCODE_PONG, |message|) + message && sent.value[0] == 0x8A
  {
    sent := SendText(message, OPCODE_PONG);
    if sent.Some? { SentFirstByte(OPCODE_PONG, |message|); }
  }

  /** The first byte has the FIN bit, no reserved bit, and the opcode; the second has no mask bit. */
  lemma {:induction false} SentFirstByte(opcode: Byte, n: nat)
    requires Fits(Extended64, n) && opcode < 16
    ensures var first := SentHead(opcode, n)[0];
      first & 0x80 == 0x80 && first & 0x70 == 0 && first & 0x0f == opcode
    ensures opcode == OPCODE_TEXT ==> SentHead(opcode, n)[0] == 0x81
    ensures opcode == OPCODE_PONG ==> SentHead(opcode, n)[0] == 0x8A
  {
    assert SentHead(opcode, n)[0] == 0x80 | opcode;
    FinBits(opcode);
  }

  lemma FinBits(opcode: Byte)
    requires opcode < 16
    ensures var first := (0x80 as Byte) | opcode;
      first & 0x80 == 0x80 && first & 0x70 == 0 && first & 0x0f == opcode
  {
  }

  /** The examples of section 5.7 of RFC 6455: a masked text frame, an unmasked one, and two long headers. */
  lemma {:induction false} StandardExamples()
    ensures ReadOne(Reader(MASKED_HELLO, true, [], false)) == Reader([], true, [Message(Text, HELLO)], false)
    ensures SentHead(OPCODE_TEXT, |HELLO|) == [0x81, 0x05]
    ensures SentHead(OPCODE_BINARY, 256) == [0x82, 0x7e, 0x01, 0x00]
    ensures SentHead(OPCODE_BINARY, 65536) == [0x82, 0x7f, 0, 0, 0, 0, 0, 1, 0, 0]
  {
    ReadsHello();
    SentLengths();
  }

  const HELLO: Bytes := [0x48, 0x65, 0x6c, 0x6c, 0x6f]
  const MASKED_HELLO: Bytes := [0x81, 0x85, 0x37, 0xfa, 0x21, 0x3d, 0x7f, 0x9f, 0x4d, 0x51, 0x58]

  lemma {:induction false} ReadsHello()
    ensures ReadOne(Reader(MASKED_HELLO, true, [], false)) == Reader([], true, [Message(Text, HELLO)], false)
  {
    var rest := MASKED_HELLO[2..];
    var masks: Bytes := [0x37, 0xfa, 0x21, 0x3d];
    var masked: Bytes := [0x7f, 0x9f, 0x4d, 0x51, 0x58];
    assert rest[..4] == masks && rest[4..] == masked && masked[..5] == masked && masked[5..] == [];
    assert Masking(masked, masks) == HELLO;
    assert rest[0..] == rest;
    assert (0x85 as Byte) & PAYLOAD_LEN == 5;
  }

  lemma {:induction false} SentLengths()
    ensures SentHead(OPCODE_TEXT, 5) == [0x81, 0x05]
    ensures SentHead(OPCODE_BINARY, 256) == [0x82, 0x7e, 0x01, 0x00]
    ensures SentHead(OPCODE_BINARY, 65536) == [0x82, 0x7f, 0, 0, 0, 0, 0, 1, 0, 0]
  {
    ByteIs(5, 5);
    ByteIs(0, 0);
    ByteIs(1, 1);
    PackZeros(0);
    PackZeros(5);
    assert Pack(1, 1) == Pack(0, 0) + [ByteOf(1)];
    assert Pack(256, 2) == Pack(1, 1) + [ByteOf(0)];
    assert Pack(1, 6) == Pack(0, 5) + [ByteOf(1)];
    assert Pack(256, 7) == Pack(1, 6) + [ByteOf(0)];
    assert Pack(65536, 8) == Pack(256, 7) + [ByteOf(0)];
  }

  lemma ByteIs(n: nat, b: Byte)
    requires n < 256 && b as int == n
    ensures ByteOf(n) == b
  {
  }

  lemma {:induction false} PackZeros(k: nat)
    ensures Pack(0, k) == seq(k, _ => 0)
    decreases k
  {
    if k > 0 {
      PackZeros(k - 1);
      ByteIs(0, 0);
    }
  }

  function SentForm(n: nat): Form {
    if n <= 125 then Short else if n < 65536 then Extended16 else Extended64
  }

  function SentHead(opcode: Byte, n: nat): Bytes
    requires Fits(Extended64, n)
  {
    [FIN | opcode, LengthBits(SentForm(n), n)] + LengthBytes(SentForm(n), n)
  }

  /** A header with the mask bit off, whole, that stands for some length. */
  predicate HeadFor(head: Bytes, n: nat) {
    |head| >= 2 && head[1] & MASKED == 0 && |head| == 2 + Extended(head[1]) && PayloadLength(head[1], head[2..]) == n
  }

  /** A sent header stands for the length of its payload, and no header for that length is shorter. */
  lemma {:induction false} SentHeadShortest(opcode: Byte, n: nat, other: Bytes)
    requires Fits(Extended64, n)
    ensures HeadFor(SentHead(opcode, n), n)
    ensures HeadFor(other, n) ==> |SentHead(opcode, n)| <= |other|
  {
    LengthReadsBack(SentForm(n), n, 0);
    var head := SentHead(opcode, n);
    ZeroBit(LengthBits(SentForm(n), n));
    assert head[2..] == LengthBytes(SentForm(n), n);
    if HeadFor(other, n) {
      HeadBound(other, n);
    }
  }

  lemma ZeroBit(b: Byte)
    ensures 0 | b == b
  {
  }

  /** What a header of a given size can stand for. */
  lemma {:induction false} HeadBound(head: Bytes, n: nat)
    requires HeadFor(head, n)
    ensures |head| == 2 ==> n <= 125
    ensures |head| < 10 ==> n < 65536
  {
    PowerValues();
    if Extended(head[1]) == 0 {
      SevenBitValue(head[1]);
    } else {
      UnpackBound(head[2..]);
    }
  }

  lemma SevenBitValue(b: Byte)
    requires b & PAYLOAD_LEN != 126 && b & PAYLOAD_LEN != 127
    ensures (b & PAYLOAD_LEN) as int <= 125
  {
    var c := b & PAYLOAD_LEN;
    assert c <= 125;
  }
}
