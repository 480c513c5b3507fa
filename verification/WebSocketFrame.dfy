/**
 The frame codec of `websocket_frame.cpp`: big-endian integers, the three
 length forms of section 5.2 of RFC 6455, and XOR masking.

 Encode and Decode put the masking key on the wire in big-endian order but mask
 with the key's bytes as they lie in memory, so the host's byte order is a
 parameter here.
 */
module WebSocketFrame {

  import opened Bits

  /** Byte order of the host the codec runs on. */
  datatype Host = LittleEndian | BigEndian

  const UINT32_END: nat := 0x1_0000_0000
  const UINT64_END: nat := 0x1_0000_0000_0000_0000
  /** `std::vector<uint8_t>::max_size()`; a resize beyond it throws. */
  const MAX_VECTOR: nat := 0x7FFF_FFFF_FFFF_FFFF

  const TEXT: Byte := 0x1
  const BINARY: Byte := 0x2
  const CLOSE: Byte := 0x8
  const PING: Byte := 0x9
  const PONG: Byte := 0xA

  /** `opcode` is an enum over `uint8_t`, so it can hold any byte. */
  datatype Frame = Frame(fin: bool, opcode: Byte, mask: bool, payloadLen: nat, maskingKey: nat, payload: seq<Byte>)

  /** A value the C++ struct can hold. */
  ghost predicate Representable(f: Frame) {
    f.payloadLen < UINT64_END && f.maskingKey < UINT32_END && |f.payload| <= MAX_VECTOR
  }

  // ---------------------------------------------------------------- integers

  function Pow256(n: nat): (r: nat)
    ensures r >= 1
  {
    if n == 0 then 1 else 256 * Pow256(n - 1)
  }

  /** The low `n` bytes of `value`, most significant first. */
  function ToBytes(value: nat, n: nat): (s: seq<Byte>)
    ensures |s| == n
  {
    if n == 0 then [] else ToBytes(value / 256, n - 1) + [value % 256]
  }

  function FromBytes(s: seq<Byte>): nat {
    if s == [] then 0 else FromBytes(s[..|s| - 1]) * 256 + s[|s| - 1]
  }

  lemma FromBytesSnoc(init: seq<Byte>, last: Byte)
    ensures FromBytes(init + [last]) == FromBytes(init) * 256 + last
  {
    assert (init + [last])[..|init|] == init;
  }

  lemma {:induction false} FromToBytes(value: nat, n: nat)
    requires value < Pow256(n)
    ensures FromBytes(ToBytes(value, n)) == value
  {
    if n > 0 {
      var init := ToBytes(value / 256, n - 1);
      FromToBytes(value / 256, n - 1);
      FromBytesSnoc(init, value % 256);
    }
  }

  lemma {:induction false} ToFromBytes(s: seq<Byte>)
    ensures FromBytes(s) < Pow256(|s|)
    ensures ToBytes(FromBytes(s), |s|) == s
  {
    if s != [] {
      var init, last := s[..|s| - 1], s[|s| - 1];
      ToFromBytes(init);
      assert FromBytes(s) / 256 == FromBytes(init) && FromBytes(s) % 256 == last;
      assert s == init + [last];
    }
  }

  lemma Widths()
    ensures Pow256(2) == 0x1_0000 && Pow256(4) == UINT32_END && Pow256(8) == UINT64_END
  {
    assert Pow256(2) == 256 * Pow256(1);
    assert Pow256(4) == 256 * (256 * Pow256(2));
    assert Pow256(8) == 256 * (256 * (256 * (256 * Pow256(4))));
  }

  // ----------------------------------------------------------------- masking

  /** Exclusive or of the low `n` bits. */
  function XorBits(n: nat, a: nat, b: nat): (r: nat)
    ensures r < Pow2(n)
  {
    if n == 0 then 0 else 2 * XorBits(n - 1, a / 2, b / 2) + (if a % 2 == b % 2 then 0 else 1)
  }

  function Xor(a: Byte, b: Byte): Byte {
    assert Pow2(8) == 8 * Pow2(5) == 64 * Pow2(2);
    XorBits(8, a, b)
  }

  /** The key as it lies in the host's memory. */
  function KeyInMemory(host: Host, key: nat): (s: seq<Byte>)
    ensures |s| == 4
  {
    var wire := ToBytes(key, 4);
    if host.BigEndian? then wire else [wire[3], wire[2], wire[1], wire[0]]
  }

  function Masked(keyBytes: seq<Byte>, data: seq<Byte>): (r: seq<Byte>)
    requires |keyBytes| == 4
    ensures |r| == |data|
  {
    seq(|data|, i requires 0 <= i < |data| => Xor(data[i], keyBytes[i % 4]))
  }

  lemma MaskTwice(keyBytes: seq<Byte>, data: seq<Byte>)
    requires |keyBytes| == 4
    ensures Masked(keyBytes, Masked(keyBytes, data)) == data
  {
    forall i | 0 <= i < |data|
      ensures Masked(keyBytes, Masked(keyBytes, data))[i] == data[i]
    {
      XorTwice(data[i], keyBytes[i % 4]);
    }
  }

  lemma {:induction false} XorBitsTwice(n: nat, a: nat, b: nat)
    requires a < Pow2(n)
    ensures XorBits(n, XorBits(n, a, b), b) == a
  {
    if n > 0 {
      var x := XorBits(n, a, b);
      assert x / 2 == XorBits(n - 1, a / 2, b / 2);
      XorBitsTwice(n - 1, a / 2, b / 2);
    }
  }

  lemma {:induction false} XorBitsSymmetric(n: nat, a: nat, b: nat)
    ensures XorBits(n, a, b) == XorBits(n, b, a)
  {
    if n > 0 {
      XorBitsSymmetric(n - 1, a / 2, b / 2);
    }
  }

  lemma {:induction false} XorBitsAt(n: nat, a: nat, b: nat, k: nat)
    requires k < n
    ensures ShiftRight(XorBits(n, a, b), k) % 2 == 1 <==> ShiftRight(a, k) % 2 != ShiftRight(b, k) % 2
  {
    var x := XorBits(n, a, b);
    assert x / 2 == XorBits(n - 1, a / 2, b / 2);
    if k > 0 {
      XorBitsAt(n - 1, a / 2, b / 2, k - 1);
    }
  }

  /** Bit k of the result is set if and only if bit k of exactly one of the two is. */
  lemma XorIsExclusive(a: Byte, b: Byte, k: nat)
    requires k < 8
    ensures Bit(Xor(a, b), k) == 1 <==> (Bit(a, k) == 1) != (Bit(b, k) == 1)
  {
    XorBitsAt(8, a, b, k);
    BitByShift(Xor(a, b), k);
    BitByShift(a, k);
    BitByShift(b, k);
  }

  ghost predicate ExclusiveOr(a: Byte, b: Byte, r: Byte) {
    forall k :: 0 <= k < 8 ==> (Bit(r, k) == 1 <==> (Bit(a, k) == 1) != (Bit(b, k) == 1))
  }

  /** Only one byte has those bits. */
  lemma XorIff(a: Byte, b: Byte, r: Byte)
    ensures r == Xor(a, b) <==> ExclusiveOr(a, b, r)
  {
    forall k | 0 <= k < 8
      ensures Bit(Xor(a, b), k) == 1 <==> (Bit(a, k) == 1) != (Bit(b, k) == 1)
    {
      XorIsExclusive(a, b, k);
    }
    if ExclusiveOr(a, b, r) {
      SameBits(r, Xor(a, b));
    }
  }

  lemma SameBits(a: Byte, b: Byte)
    requires forall k :: 0 <= k < 8 ==> (Bit(a, k) == 1 <==> Bit(b, k) == 1)
    ensures a == b
  {
    forall k | 0 <= k < 8
      ensures ShiftRight(a, k) % 2 == ShiftRight(b, k) % 2
    {
      assert Bit(a, k) == 1 <==> Bit(b, k) == 1;
      BitByShift(a, k);
      BitByShift(b, k);
    }
    BytePowers();
    BitsDetermine(8, a, b);
  }

  /**
   Masking is the exclusive or of section 5.3 of RFC 6455, bit by bit: octet i with octet i modulo 4
   of the key, and nothing else.
   */
  lemma MaskedIff(keyBytes: seq<Byte>, data: seq<Byte>, r: seq<Byte>)
    requires |keyBytes| == 4
    ensures r == Masked(keyBytes, data)
            <==> |r| == |data| && forall i :: 0 <= i < |data| ==> ExclusiveOr(data[i], keyBytes[i % 4], r[i])
  {
    forall i | 0 <= i < |data| && i < |r|
      ensures r[i] == Masked(keyBytes, data)[i] <==> ExclusiveOr(data[i], keyBytes[i % 4], r[i])
    {
      XorIff(data[i], keyBytes[i % 4], r[i]);
    }
  }

  /** The code's masking step, the same in both directions. */
  function Transform(host: Host, mask: bool, key: nat, data: seq<Byte>): (r: seq<Byte>)
    ensures |r| == |data|
  {
    if mask then Masked(KeyInMemory(host, key), data) else data
  }

  lemma TransformTwice(host: Host, mask: bool, key: nat, data: seq<Byte>)
    ensures Transform(host, mask, key, Transform(host, mask, key, data)) == data
  {
    if mask {
      MaskTwice(KeyInMemory(host, key), data);
    }
  }

  lemma XorTwice(a: Byte, k: Byte)
    ensures Xor(Xor(a, k), k) == a && Xor(a, k) == Xor(k, a)
  {
    assert Pow2(8) == 8 * Pow2(5) == 64 * Pow2(2);
    XorBitsTwice(8, a, k);
    XorBitsSymmetric(8, a, k);
  }

  // ------------------------------------------------------------ specification

  function Header0(f: Frame): Byte {
    (if f.fin then 0x80 else 0x00) + f.opcode % 16
  }

  /** The second byte and the extended length that follows it. */
  function LengthField(mask: bool, len: nat): (s: seq<Byte>)
    requires len < UINT64_END
    ensures |s| >= 1
  {
    var bit: Byte := if mask then 0x80 else 0x00;
    if len < 126 then [bit + len]
    else if len <= 0xFFFF then [bit + 126] + ToBytes(len, 2)
    else [bit + 127] + ToBytes(len, 8)
  }

  function KeyField(f: Frame): seq<Byte> {
    if f.mask then ToBytes(f.maskingKey, 4) else []
  }

  function Body(host: Host, f: Frame): seq<Byte> {
    Transform(host, f.mask, f.maskingKey, f.payload)
  }

  function Encoded(host: Host, f: Frame): (r: seq<Byte>)
    requires f.payloadLen < UINT64_END
    ensures |r| >= 2
  {
    [Header0(f)] + LengthField(f.mask, f.payloadLen) + KeyField(f) + Body(host, f)
  }

  /**
   Decode's three ways out. `Overflow`: the 64-bit sum `pos + payload_len` wrapped, or the length
   exceeds what a vector can hold, and the resize throws `std::length_error`.
   */
  datatype Outcome = Incomplete | Decoded(frame: Frame, consumed: nat) | Overflow

  /** The length announced by the second byte and the position after the length field. */
  datatype Announced = TooShort | Announced(len: nat, pos: nat)

  function ReadLength(data: seq<Byte>): Announced
    requires |data| >= 2
  {
    var short := data[1] % 128;
    if short == 126 then
      if |data| < 4 then TooShort else Announced(FromBytes(data[2..4]), 4)
    else if short == 127 then
      if |data| < 10 then TooShort else Announced(FromBytes(data[2..10]), 10)
    else Announced(short, 2)
  }

  /** Everything before the payload: the mask bit, the key, the length and where the payload starts. */
  datatype Preamble = Partial | Preamble(mask: bool, key: nat, len: nat, pos: nat)

  function ReadPreamble(data: seq<Byte>): Preamble {
    if |data| < 2 then Partial else
    match ReadLength(data)
    case TooShort => Partial
    case Announced(len, pos) =>
      if data[1] < 128 then Preamble(false, 0, len, pos)
      else if |data| < pos + 4 then Partial
      else Preamble(true, FromBytes(data[pos..pos + 4]), len, pos + 4)
  }

  function Assemble(host: Host, byte0: Byte, p: Preamble, raw: seq<Byte>): Frame
    requires p.Preamble?
  {
    Frame(byte0 >= 128, byte0 % 16, p.mask, p.len, p.key, Transform(host, p.mask, p.key, raw))
  }

  /** Addition of two 64-bit values, which wraps around. */
  function Add64(a: nat, b: nat): nat {
    if a + b < UINT64_END then a + b else a + b - UINT64_END
  }

  function Decode(host: Host, data: seq<Byte>): Outcome {
    var p := ReadPreamble(data);
    if p.Partial? || |data| < Add64(p.pos, p.len) then Incomplete
    else if p.len > MAX_VECTOR then Overflow
    else Decoded(Assemble(host, data[0], p, data[p.pos..p.pos + p.len]), p.pos + p.len)
  }

  // --------------------------------------------------- stability and progress

  lemma PreambleStable(b: seq<Byte>, x: seq<Byte>)
    requires ReadPreamble(b).Preamble?
    ensures ReadPreamble(b + x) == ReadPreamble(b)
    ensures 2 <= ReadPreamble(b).pos <= |b| && ReadPreamble(b).pos <= 14
  {
    var data, at := b + x, ReadLength(b);
    assert data[2..at.pos] == b[2..at.pos];
    assert ReadLength(data) == at;
    assert b[1] >= 128 ==> data[at.pos..at.pos + 4] == b[at.pos..at.pos + 4];
  }

  /** A decision taken on a buffer is not changed by bytes that arrive later. */
  lemma DecodeStable(host: Host, b: seq<Byte>, x: seq<Byte>)
    requires !Decode(host, b).Incomplete?
    ensures Decode(host, b + x) == Decode(host, b)
  {
    PreambleStable(b, x);
    var p := ReadPreamble(b);
    if p.len <= MAX_VECTOR {
      assert (b + x)[p.pos..p.pos + p.len] == b[p.pos..p.pos + p.len];
    }
  }

  /** What every decoded frame satisfies, and how much of the buffer it used. */
  lemma DecodeProgress(host: Host, b: seq<Byte>)
    requires Decode(host, b).Decoded?
    ensures 2 <= Decode(host, b).consumed <= |b|
    ensures var f := Decode(host, b).frame;
            |f.payload| == f.payloadLen && f.opcode < 16 && (!f.mask ==> f.maskingKey == 0) && Representable(f)
  {
    PreambleStable(b, []);
    if b[1] >= 128 {
      var pos := ReadLength(b).pos;
      ToFromBytes(b[pos..pos + 4]);
      Widths();
    }
  }

  // --------------------------------------------------------------- round trip

  lemma ReadLengthAt(data: seq<Byte>, short: nat, field: seq<Byte>)
    requires |data| >= 2 + |field| && data[1] % 128 == short && data[2..2 + |field|] == field
    ensures short < 126 ==> ReadLength(data) == Announced(short, 2)
    ensures short == 126 && |field| == 2 ==> ReadLength(data) == Announced(FromBytes(field), 4)
    ensures short == 127 && |field| == 8 ==> ReadLength(data) == Announced(FromBytes(field), 10)
  {}

  lemma MaskBit(b: nat, mask: bool, short: nat)
    requires b == (if mask then 0x80 else 0) + short && short < 128
    ensures b < 256 && (b >= 128) == mask && b % 128 == short
  {}

  lemma FieldAfter(b0: Byte, b1: Byte, field: seq<Byte>, tail: seq<Byte>)
    ensures var data := [b0] + ([b1] + field) + tail;
            |data| >= 2 + |field| && data[1] == b1 && data[2..2 + |field|] == field
  {}

  lemma ReadLengthOf(b0: Byte, mask: bool, len: nat, tail: seq<Byte>)
    requires len < UINT64_END
    ensures var field := LengthField(mask, len);
            var data := [b0] + field + tail;
            |data| >= 2 && (data[1] >= 128) == mask && ReadLength(data) == Announced(len, 1 + |field|)
  {
    var bit := if mask then 0x80 else 0;
    var data := [b0] + LengthField(mask, len) + tail;
    Widths();
    if len < 126 {
      MaskBit(bit + len, mask, len);
      FieldAfter(b0, bit + len, [], tail);
      ReadLengthAt(data, len, []);
    } else if len <= 0xFFFF {
      MaskBit(bit + 126, mask, 126);
      FieldAfter(b0, bit + 126, ToBytes(len, 2), tail);
      ReadLengthAt(data, 126, ToBytes(len, 2));
      FromToBytes(len, 2);
    } else {
      MaskBit(bit + 127, mask, 127);
      FieldAfter(b0, bit + 127, ToBytes(len, 8), tail);
      ReadLengthAt(data, 127, ToBytes(len, 8));
      FromToBytes(len, 8);
    }
  }

  /** What Decode returns for an encoded frame: everything the wire format carries. */
  function Carried(f: Frame): Frame {
    f.(opcode := f.opcode % 16, maskingKey := if f.mask then f.maskingKey else 0)
  }

  lemma PreambleEncoded(f: Frame, tail: seq<Byte>)
    requires Representable(f)
    ensures var field := LengthField(f.mask, f.payloadLen);
            ReadPreamble([Header0(f)] + field + KeyField(f) + tail)
            == Preamble(f.mask, Carried(f).maskingKey, f.payloadLen, 1 + |field| + |KeyField(f)|)
  {
    var field := LengthField(f.mask, f.payloadLen);
    var data := [Header0(f)] + field + KeyField(f) + tail;
    assert data == [Header0(f)] + field + (KeyField(f) + tail);
    ReadLengthOf(Header0(f), f.mask, f.payloadLen, KeyField(f) + tail);
    if f.mask {
      assert data[1 + |field|..5 + |field|] == KeyField(f);
      Widths();
      FromToBytes(f.maskingKey, 4);
    }
  }

  /** Decoding, once it is known where the payload is. */
  lemma DecodeBy(host: Host, data: seq<Byte>, p: Preamble, raw: seq<Byte>)
    requires data != [] && ReadPreamble(data) == p && p.Preamble? && p.len == |raw| <= MAX_VECTOR
    requires p.pos + p.len <= |data| && p.pos + p.len < UINT64_END && data[p.pos..p.pos + p.len] == raw
    ensures Decode(host, data) == Decoded(Assemble(host, data[0], p, raw), p.pos + p.len)
  {}

  lemma DecodeEncoded(host: Host, f: Frame, rest: seq<Byte>)
    requires Representable(f) && f.payloadLen == |f.payload|
    ensures Decode(host, Encoded(host, f) + rest) == Decoded(Carried(f), |Encoded(host, f)|)
  {
    var body, key := Body(host, f), Carried(f).maskingKey;
    var head := [Header0(f)] + LengthField(f.mask, f.payloadLen) + KeyField(f);
    var data := Encoded(host, f) + rest;
    assert data == head + (body + rest);
    PreambleEncoded(f, body + rest);
    DecodeBy(host, data, ReadPreamble(data), body) by {
      assert data[|head|..|head| + |body|] == body;
    }
    TransformTwice(host, f.mask, key, f.payload);
    HeaderFields(f);
    assert data[0] == Header0(f);
  }

  lemma HeaderFields(f: Frame)
    ensures (Header0(f) >= 128) == f.fin && Header0(f) % 16 == f.opcode % 16
  {}

  /**
   Round trip, with its exact domain: an encoded frame followed by any bytes decodes to itself and
   to its own length if and only if the length field is the payload's size, the opcode fits in four
   bits and an unmasked frame carries no key.
   */
  lemma RoundTrip(host: Host, f: Frame, rest: seq<Byte>)
    requires Representable(f)
    ensures Decode(host, Encoded(host, f) + rest) == Decoded(f, |Encoded(host, f)|)
            <==> f.payloadLen == |f.payload| && f.opcode < 16 && (!f.mask ==> f.maskingKey == 0)
  {
    if f.payloadLen == |f.payload| {
      DecodeEncoded(host, f, rest);
      assert f.opcode < 16 <==> f.opcode % 16 == f.opcode;
    } else if Decode(host, Encoded(host, f) + rest).Decoded? {
      DecodeProgress(host, Encoded(host, f) + rest);
    }
  }

  /** No proper prefix of an encoded frame is taken for a frame. */
  lemma PrefixIncomplete(host: Host, f: Frame, n: nat)
    requires Representable(f) && f.payloadLen == |f.payload|
    requires n < |Encoded(host, f)|
    ensures Decode(host, Encoded(host, f)[..n]).Incomplete?
  {
    var whole := Encoded(host, f);
    DecodeEncoded(host, f, []);
    assert whole + [] == whole;
    if !Decode(host, whole[..n]).Incomplete? {
      PrefixDecides(host, whole, n);
    }
  }

  /** A prefix that is decoded decides the whole, and is at least as long as what it used. */
  lemma PrefixDecides(host: Host, whole: seq<Byte>, n: nat)
    requires n <= |whole| && !Decode(host, whole[..n]).Incomplete?
    ensures Decode(host, whole) == Decode(host, whole[..n])
    ensures Decode(host, whole).Decoded? ==> Decode(host, whole).consumed <= n
  {
    DecodeStable(host, whole[..n], whole[n..]);
    assert whole[..n] + whole[n..] == whole;
    if Decode(host, whole[..n]).Decoded? {
      DecodeProgress(host, whole[..n]);
    }
  }

  // ------------------------------------------------------- reverse round trip

  /** Section 5.2 of RFC 6455: the length is sent in the shortest of the three forms. */
  predicate MinimalLength(data: seq<Byte>)
    requires |data| >= 2
  {
    match ReadLength(data)
    case TooShort => false
    case Announced(len, pos) => (pos == 4 ==> len >= 126) && (pos == 10 ==> len > 0xFFFF)
  }

  predicate ReservedBitsClear(b: Byte) {
    b / 16 % 8 == 0
  }

  /** A length field reads back as written exactly when it was in minimal form. */
  lemma LengthFieldOf(data: seq<Byte>)
    requires |data| >= 2 && ReadLength(data).Announced?
    ensures var at := ReadLength(data);
            at.len < UINT64_END && at.pos <= |data|
            && (MinimalLength(data) <==> |LengthField(data[1] >= 128, at.len)| == at.pos - 1)
            && (MinimalLength(data) ==> LengthField(data[1] >= 128, at.len) == data[1..at.pos])
  {
    Widths();
    var at := ReadLength(data);
    ToFromBytes(data[2..at.pos]);
    assert data[1..at.pos] == [data[1]] + data[2..at.pos];
  }

  /** What a decoded frame has of its preamble, and where its payload came from. */
  lemma DecodedFrom(host: Host, data: seq<Byte>)
    requires Decode(host, data).Decoded?
    ensures var f, n, p := Decode(host, data).frame, Decode(host, data).consumed, ReadPreamble(data);
            && p.Preamble? && n == p.pos + p.len <= |data| && ReadLength(data).Announced?
            && ReadLength(data).pos <= p.pos && f.mask == p.mask && f.maskingKey == p.key
            && f.payload == Transform(host, p.mask, p.key, data[p.pos..n])
  {
    PreambleStable(data, []);
  }

  lemma KeyOf(host: Host, data: seq<Byte>)
    requires Decode(host, data).Decoded?
    ensures ReadPreamble(data).Preamble? && ReadLength(data).Announced?
    ensures ReadLength(data).pos <= ReadPreamble(data).pos <= |data|
    ensures KeyField(Decode(host, data).frame) == data[ReadLength(data).pos..ReadPreamble(data).pos]
  {
    DecodedFrom(host, data);
    var p := ReadPreamble(data);
    if p.mask {
      ToFromBytes(data[p.pos - 4..p.pos]);
    }
  }

  lemma BodyOf(host: Host, data: seq<Byte>)
    requires Decode(host, data).Decoded?
    ensures var f, p := Decode(host, data).frame, ReadPreamble(data);
            ReadLength(data).pos <= p.pos <= Decode(host, data).consumed <= |data|
            && KeyField(f) == data[ReadLength(data).pos..p.pos]
            && Body(host, f) == data[p.pos..Decode(host, data).consumed]
  {
    KeyOf(host, data);
    DecodedFrom(host, data);
    var p := ReadPreamble(data);
    TransformTwice(host, p.mask, p.key, data[p.pos..Decode(host, data).consumed]);
  }

  lemma SameParts(head: Byte, field: seq<Byte>, data: seq<Byte>, i: nat, j: nat, n: nat)
    requires 1 <= i <= j <= n <= |data|
    ensures [head] + field + data[i..j] + data[j..n] == data[..n] <==> head == data[0] && field == data[1..i]
  {
    var whole := [head] + field + data[i..j] + data[j..n];
    if whole == data[..n] {
      assert |field| == i - 1;
      assert field == whole[1..i];
    }
    if head == data[0] && field == data[1..i] {
      assert whole == data[..n];
    }
  }

  /**
   Reverse round trip: re-encoding a decoded frame gives the bytes it was decoded from if and only
   if the reserved bits were zero and the length was in minimal form.
   */
  lemma ReverseRoundTrip(host: Host, data: seq<Byte>)
    requires Decode(host, data).Decoded?
    ensures var f, n := Decode(host, data).frame, Decode(host, data).consumed;
            f.payloadLen < UINT64_END && n <= |data|
            && (Encoded(host, f) == data[..n] <==> ReservedBitsClear(data[0]) && MinimalLength(data))
  {
    var f, n := Decode(host, data).frame, Decode(host, data).consumed;
    DecodeProgress(host, data);
    LengthFieldOf(data);
    var at, p := ReadLength(data), ReadPreamble(data);
    BodyOf(host, data);
    var field := LengthField(f.mask, f.payloadLen);
    SameParts(Header0(f), field, data, at.pos, p.pos, n);
  }

  // ----------------------------------------------- conformance with RFC 6455

  /** Section 5.3 of RFC 6455: octet i is XORed with octet i modulo 4 of the key on the wire. */
  function Rfc6455Masked(key: nat, data: seq<Byte>): seq<Byte> {
    Masked(ToBytes(key, 4), data)
  }

  lemma MaskedEqual(k1: seq<Byte>, k2: seq<Byte>, data: seq<Byte>)
    requires |k1| == |k2| == 4
    ensures Masked(k1, data) == Masked(k2, data) <==> forall i :: 0 <= i < |data| && i < 4 ==> k1[i] == k2[i]
  {
    forall i | 0 <= i < |data| && k1[i % 4] != k2[i % 4]
      ensures Masked(k1, data)[i] != Masked(k2, data)[i]
    {
      XorTwice(k1[i % 4], data[i]);
      XorTwice(k2[i % 4], data[i]);
    }
    forall i | 0 <= i < |data| && i < 4 && Masked(k1, data) == Masked(k2, data)
      ensures k1[i] == k2[i]
    {
      assert Masked(k1, data)[i] == Masked(k2, data)[i];
      assert i % 4 == i;
    }
    if forall i :: 0 <= i < |data| && i < 4 ==> k1[i] == k2[i] {
      forall i | 0 <= i < |data|
        ensures k1[i % 4] == k2[i % 4]
      {}
    }
  }

  /** The bytes of the key that are applied to `n` octets are the same in either byte order. */
  predicate OrderIrrelevant(key: nat, n: nat) {
    var wire := ToBytes(key, 4);
    n == 0 || (wire[0] == wire[3] && (n == 1 || wire[1] == wire[2]))
  }

  /**
   The masking the code applies, in either direction, is the one of section 5.3 exactly on a
   big-endian host, or when the payload is empty, or when the key bytes that would have to trade
   places are equal. In particular a little-endian host does not unmask what a conforming client
   sent under any key whose outer bytes differ.
   */
  lemma MaskingConforms(host: Host, key: nat, data: seq<Byte>)
    ensures Masked(KeyInMemory(host, key), data) == Rfc6455Masked(key, data)
            <==> host.BigEndian? || OrderIrrelevant(key, |data|)
  {
    MaskedEqual(KeyInMemory(host, key), ToBytes(key, 4), data);
    var mem, wire := KeyInMemory(host, key), ToBytes(key, 4);
    assert |data| >= 1 && mem[0] != wire[0] ==> exists i :: 0 <= i < |data| && i < 4 && mem[i] != wire[i];
    assert |data| >= 2 && mem[1] != wire[1] ==> exists i :: 0 <= i < |data| && i < 4 && mem[i] != wire[i];
  }

  /** For example, the key 1, 2, 3, 4 on the usual hosts. */
  lemma MaskingDiffers()
    ensures Masked(KeyInMemory(LittleEndian, 0x01020304), [0]) != Rfc6455Masked(0x01020304, [0])
  {
    KeyBytes();
    MaskingConforms(LittleEndian, 0x01020304, [0]);
  }

  lemma KeyBytes()
    ensures ToBytes(0x01020304, 4) == [1, 2, 3, 4]
  {
    assert ToBytes(0x01, 1) == [1];
    assert ToBytes(0x0102, 2) == [1, 2];
    assert ToBytes(0x010203, 3) == [1, 2, 3];
  }

  /** A masked frame as a client that follows section 5.3 sends it. */
  function ClientEncoded(f: Frame): seq<Byte>
    requires f.payloadLen < UINT64_END
  {
    [Header0(f)] + LengthField(true, f.payloadLen) + ToBytes(f.maskingKey, 4) + Rfc6455Masked(f.maskingKey, f.payload)
  }

  /** Decoding on another host differs in the payload only, which is unmasked there by that host's order. */
  lemma DecodeElsewhere(host: Host, other: Host, data: seq<Byte>)
    requires Decode(other, data).Decoded?
    ensures var f := Decode(other, data).frame;
            Decode(host, data) == Decode(other, data).(
                frame := f.(payload := Transform(host, f.mask, f.maskingKey,
                                                 Transform(other, f.mask, f.maskingKey, f.payload))))
  {
    var p := ReadPreamble(data);
    TransformTwice(other, p.mask, p.key, data[p.pos..p.pos + p.len]);
  }

  /**
   A conforming client's frame decodes to what the client sent if and only if the host is big-endian
   or the order of the key's bytes does not matter for a payload of that length.
   */
  lemma ClientFrameArrivesIff(host: Host, f: Frame, rest: seq<Byte>)
    requires Representable(f) && f.payloadLen == |f.payload| && f.opcode < 16 && f.mask
    ensures Decode(host, ClientEncoded(f) + rest) == Decoded(f, |ClientEncoded(f)|)
            <==> host.BigEndian? || OrderIrrelevant(f.maskingKey, |f.payload|)
  {
    var data := ClientEncoded(f) + rest;
    assert ClientEncoded(f) == Encoded(BigEndian, f);
    RoundTrip(BigEndian, f, rest);
    DecodeElsewhere(host, BigEndian, data);
    MaskTwice(ToBytes(f.maskingKey, 4), f.payload);
    MaskingConforms(host, f.maskingKey, Rfc6455Masked(f.maskingKey, f.payload));
  }

  function Hello(): Frame {
    Frame(true, 1, true, 5, 0x37FA213D, [0x48, 0x65, 0x6C, 0x6C, 0x6F])
  }

  function HelloWire(): seq<Byte> {
    [0x81, 0x85, 0x37, 0xFA, 0x21, 0x3D, 0x7F, 0x9F, 0x4D, 0x51, 0x58]
  }

  lemma EncodedBy(host: Host, f: Frame, head: seq<Byte>, key: seq<Byte>, body: seq<Byte>)
    requires f.payloadLen < UINT64_END && [Header0(f)] + LengthField(f.mask, f.payloadLen) == head
    requires KeyField(f) == key && Body(host, f) == body
    ensures Encoded(host, f) == head + key + body
  {}

  lemma FiveMasked(k0: Byte, k1: Byte, k2: Byte, k3: Byte, d: seq<Byte>)
    requires |d| == 5
    ensures Masked([k0, k1, k2, k3], d) == [Xor(d[0], k0), Xor(d[1], k1), Xor(d[2], k2), Xor(d[3], k3), Xor(d[4], k0)]
  {}

  lemma EncodedRead(f: Frame, wire: seq<Byte>, rest: seq<Byte>)
    requires Representable(f) && f.payloadLen == |f.payload| && f.opcode < 16 && f.mask
    requires Encoded(BigEndian, f) == wire
    ensures Decode(BigEndian, wire + rest) == Decoded(f, |wire|)
  {
    RoundTrip(BigEndian, f, rest);
  }

  lemma HelloEncoded()
    ensures Encoded(BigEndian, Hello()) == HelloWire()
  {
    EncodedBy(BigEndian, Hello(), [0x81, 0x85], [0x37, 0xFA, 0x21, 0x3D], [0x7F, 0x9F, 0x4D, 0x51, 0x58]) by {
      HelloKey();
      HelloOctets();
      FiveMasked(0x37, 0xFA, 0x21, 0x3D, Hello().payload);
    }
  }

  /** The masked frame of section 5.7 of RFC 6455, which carries "Hello", is written and read as there. */
  lemma HelloArrives(rest: seq<Byte>)
    ensures Encoded(BigEndian, Hello()) == HelloWire()
    ensures Decode(BigEndian, HelloWire() + rest) == Decoded(Hello(), 11)
  {
    HelloEncoded();
    EncodedRead(Hello(), HelloWire(), rest);
  }

  lemma HelloKey()
    ensures FromBytes([0x37, 0xFA, 0x21, 0x3D]) == 0x37FA213D
    ensures ToBytes(0x37FA213D, 4) == [0x37, 0xFA, 0x21, 0x3D]
  {
    FromBytesSnoc([], 0x37);
    FromBytesSnoc([0x37], 0xFA);
    FromBytesSnoc([0x37, 0xFA], 0x21);
    FromBytesSnoc([0x37, 0xFA, 0x21], 0x3D);
    assert [] + [0x37] == [0x37] && [0x37] + [0xFA] == [0x37, 0xFA] && [0x37, 0xFA] + [0x21] == [0x37, 0xFA, 0x21];
    assert [0x37, 0xFA, 0x21] + [0x3D] == [0x37, 0xFA, 0x21, 0x3D];
    ToFromBytes([0x37, 0xFA, 0x21, 0x3D]);
  }

  lemma HelloOctets()
    ensures Xor(0x48, 0x37) == 0x7F && Xor(0x65, 0xFA) == 0x9F && Xor(0x6C, 0x21) == 0x4D
    ensures Xor(0x6C, 0x3D) == 0x51 && Xor(0x6F, 0x37) == 0x58
  {}

  // --------------------------------------------------------- a length that wraps

  lemma {:induction false} LargestBytes(n: nat)
    ensures FromBytes(seq(n, _ => 0xFF)) == Pow256(n) - 1
  {
    if n > 0 {
      LargestBytes(n - 1);
      assert seq(n, _ => 0xFF) == seq(n - 1, _ => 0xFF) + [0xFF];
      FromBytesSnoc(seq(n - 1, _ => 0xFF), 0xFF);
    }
  }

  /**
   Exactly which buffers end in the exception: those whose announced length makes the 64-bit sum of
   position and length wrap. A buffer is never longer than a vector can be.
   */
  lemma OverflowIff(host: Host, data: seq<Byte>)
    requires |data| <= MAX_VECTOR
    ensures Decode(host, data).Overflow?
            <==> ReadPreamble(data).Preamble? && ReadPreamble(data).pos + ReadPreamble(data).len >= UINT64_END
  {
    var p := ReadPreamble(data);
    if p.Preamble? {
      PreambleStable(data, []);
      Widths();
      LengthFieldOf(data);
    }
  }

  /** The largest 64-bit length gets past the bound on ten bytes, and the resize throws. */
  lemma LargestLengthOverflows(host: Host)
    ensures Decode(host, [0x82, 0x7F] + seq(8, _ => 0xFF)) == Overflow
  {
    var data := [0x82, 0x7F] + seq(8, _ => 0xFF);
    LargestBytes(8);
    Widths();
    assert data[2..10] == seq(8, _ => 0xFF);
    OverflowIff(host, data);
  }

  // ------------------------------------------------------------ implementation

  /** `value >> 8 * k`. */
  function DropBytes(value: nat, k: nat): nat {
    if k == 0 then value else DropBytes(value, k - 1) / 256
  }

  method WriteUint64(out: seq<Byte>, value: nat, bytes: nat) returns (r: seq<Byte>)
    ensures r == out + ToBytes(value, bytes)
  {
    r := out;
    var i := bytes;
    while i > 0
      invariant 0 <= i <= bytes
      invariant r == out + ToBytes(DropBytes(value, i), bytes - i)
    {
      i := i - 1;
      r := r + [DropBytes(value, i) % 256];
    }
  }

  method ReadUint64(data: seq<Byte>, offset: nat, bytes: nat) returns (value: nat)
    requires offset + bytes <= |data|
    ensures value == FromBytes(data[offset..offset + bytes])
  {
    value := 0;
    for i := 0 to bytes
      invariant value == FromBytes(data[offset..offset + i])
    {
      assert data[offset..offset + i + 1] == data[offset..offset + i] + [data[offset + i]];
      FromBytesSnoc(data[offset..offset + i], data[offset + i]);
      value := value * 256 + data[offset + i];
    }
  }

  /** XORs the last `|key|`-periodic stretch of `out`, from `start` on, in place. */
  method ApplyMask(keyBytes: seq<Byte>, out: seq<Byte>, start: nat) returns (r: seq<Byte>)
    requires |keyBytes| == 4 && start <= |out|
    ensures r == out[..start] + Masked(keyBytes, out[start..])
  {
    r := out;
    assert r == Partly(keyBytes, out, start, 0);
    for i := 0 to |out| - start
      invariant r == Partly(keyBytes, out, start, i)
    {
      PartlyNext(keyBytes, out, start, i);
      r := r[start + i := Xor(r[start + i], keyBytes[i % 4])];
    }
  }

  /** The first `i` octets from `start` on are masked. */
  ghost function Partly(keyBytes: seq<Byte>, out: seq<Byte>, start: nat, i: nat): (r: seq<Byte>)
    requires |keyBytes| == 4 && start + i <= |out|
    ensures |r| == |out|
  {
    out[..start] + Masked(keyBytes, out[start..])[..i] + out[start + i..]
  }

  lemma PartlyNext(keyBytes: seq<Byte>, out: seq<Byte>, start: nat, i: nat)
    requires |keyBytes| == 4 && start + i < |out|
    ensures var r := Partly(keyBytes, out, start, i);
            r[start + i := Xor(r[start + i], keyBytes[i % 4])] == Partly(keyBytes, out, start, i + 1)
  {
    var masked := Masked(keyBytes, out[start..]);
    assert masked[..i + 1] == masked[..i] + [Xor(out[start + i], keyBytes[i % 4])];
  }

  method EncodeFrame(host: Host, f: Frame) returns (out: seq<Byte>)
    requires Representable(f)
    ensures out == Encoded(host, f)
  {
    Widths();
    out := [(if f.fin then 0x80 else 0x00) + LowNibble(f.opcode)];
    var byte1: Byte := if f.mask then 0x80 else 0x00;
    var len := f.payloadLen;
    if len < 126 {
      out := out + [byte1 + len];
    } else if len <= 0xFFFF {
      out := WriteUint64(out + [byte1 + 126], len, 2);
    } else {
      out := WriteUint64(out + [byte1 + 127], len, 8);
    }
    assert out == [Header0(f)] + LengthField(f.mask, len);
    if f.mask {
      out := WriteUint64(out, f.maskingKey, 4);
    }
    ghost var head := [Header0(f)] + LengthField(f.mask, len) + KeyField(f);
    assert out == head;
    out := out + f.payload;
    assert out[..|head|] == head && out[|head|..] == f.payload;
    if f.mask && f.payload != [] {
      out := ApplyMask(KeyInMemory(host, f.maskingKey), out, |out| - |f.payload|);
    }
    assert f.mask && f.payload == [] ==> Body(host, f) == [];
  }

  method DecodePreamble(data: seq<Byte>) returns (p: Preamble)
    ensures p == ReadPreamble(data)
  {
    if |data| < 2 { return Partial; }
    var mask := TopBit(data[1]);
    var len, pos := LowSeven(data[1]), 2;
    if len == 126 {
      if |data| < pos + 2 { return Partial; }
      len := ReadUint64(data, pos, 2);
      pos := pos + 2;
    } else if len == 127 {
      if |data| < pos + 8 { return Partial; }
      len := ReadUint64(data, pos, 8);
      pos := pos + 8;
    }
    assert ReadLength(data) == Announced(len, pos);
    var key := 0;
    if mask {
      if |data| < pos + 4 { return Partial; }
      key := ReadUint64(data, pos, 4);
      pos := pos + 4;
    }
    return Preamble(mask, key, len, pos);
  }

  method DecodeFrame(host: Host, data: seq<Byte>) returns (o: Outcome)
    ensures o == Decode(host, data)
  {
    var p := DecodePreamble(data);
    if p.Partial? || |data| < Add64(p.pos, p.len) { return Incomplete; }
    if p.len > MAX_VECTOR { return Overflow; }
    var raw := data[p.pos..p.pos + p.len];
    var payload := raw;
    if p.mask && p.len > 0 {
      payload := ApplyMask(KeyInMemory(host, p.key), raw, 0);
      assert raw[0..] == raw;
    }
    assert payload == Transform(host, p.mask, p.key, raw);
    return Decoded(Frame(TopBit(data[0]), LowNibble(data[0]), p.mask, p.len, p.key, payload), p.pos + p.len);
  }
}
