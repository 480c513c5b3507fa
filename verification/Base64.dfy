/**
 Base64 as `websocket_session.cpp` computes it, against section 4 of RFC 4648.
 */
module Base64 {

  import opened Bits

  type Sextet = v: nat | v < 64

  /** The alphabet of table 1: capitals, small letters, digits, plus and slash. */
  function Letter(v: Sextet): char {
    if v < 26 then ('A' as int + v) as char else if v < 52 then ('a' as int + v - 26) as char
    else if v < 62 then ('0' as int + v - 52) as char else if v == 62 then '+' else '/'
  }

  // ------------------------------------------------------------ definition by blocks

  /** Up to three bytes, filled up with zero bits on the right, as one 24-bit number. */
  function Group(s: seq<Byte>): (g: nat)
    requires s != []
    ensures g < 0x1000000
  {
    var a: nat := s[0];
    var b: nat := if |s| > 1 then s[1] else 0;
    var c: nat := if |s| > 2 then s[2] else 0;
    a * 0x10000 + b * 0x100 + c
  }

  /** A 24-bit number as four digits of six bits, the most significant first. */
  function Digits(g: nat): (d: seq<Sextet>)
    requires g < 0x1000000
    ensures |d| == 4
  {
    [g / 64 / 64 / 64, g / 64 / 64 % 64, g / 64 % 64, g % 64]
  }

  /** As many digits as hold bits of n bytes, then padding. */
  function Written(d: seq<Sextet>, n: nat): (t: string)
    requires |d| == 4
    ensures |t| == 4
  {
    [Letter(d[0]), Letter(d[1]), if n > 1 then Letter(d[2]) else '=', if n > 2 then Letter(d[3]) else '=']
  }

  function Block(s: seq<Byte>): (t: string)
    ensures |t| == 4
  {
    if s == [] then "====" else Written(Digits(Group(s)), |s|)
  }

  /** From position k on, three bytes at a time, the last block shorter. */
  function InBlocks(f: seq<Byte> -> string, s: seq<Byte>, k: nat): string
    decreases |s| - k
  {
    if k >= |s| then "" else f(s[k..Min(k + 3, |s|)]) + InBlocks(f, s, k + 3)
  }

  function Encoded(s: seq<Byte>): string {
    InBlocks(Block, s, 0)
  }

  // ------------------------------------------------------------ specification decoder

  /** The position of a letter in the alphabet, if it has one. */
  function ValueFrom(c: char, v: nat): (r: nat)
    requires v <= 64
    ensures r <= 64
    decreases 64 - v
  {
    if v == 64 then 64 else if Letter(v) == c then v else ValueFrom(c, v + 1)
  }

  function Bytes(g: nat): (s: seq<Byte>)
    ensures |s| == 3
  {
    [g / 256 / 256 % 256, g / 256 % 256, g % 256]
  }

  function Value(c: char): nat {
    if c == '=' then 0 else ValueFrom(c, 0)
  }

  function Joined(w: nat, x: nat, y: nat, z: nat): nat {
    ((w * 64 + x) * 64 + y) * 64 + z
  }

  /** The bytes of one block; padding counts as zero bits and shortens the block. */
  function Unblock(t: string): seq<Byte> {
    if |t| != 4 then [] else
    Bytes(Joined(Value(t[0]), Value(t[1]), Value(t[2]), Value(t[3])))
    [..if t[2] == '=' then 1 else if t[3] == '=' then 2 else 3]
  }

  /** Four characters at a time; a shorter tail is dropped. */
  function OutOfBlocks(g: string -> seq<Byte>, t: string): seq<Byte> {
    if |t| < 4 then [] else g(t[..4]) + OutOfBlocks(g, t[4..])
  }

  function Decoded(t: string): seq<Byte> {
    OutOfBlocks(Unblock, t)
  }

  // ------------------------------------------------------------ round trip

  lemma LettersDiffer(v: Sextet, w: Sextet)
    ensures Letter(v) != '='
    ensures v != w ==> Letter(v) != Letter(w)
  {}

  lemma {:induction false} ValueOfLetter(v: Sextet, from: nat)
    requires from <= v
    ensures ValueFrom(Letter(v), from) == v
    decreases v - from
  {
    if from < v {
      LettersDiffer(v, from);
      ValueOfLetter(v, from + 1);
    }
  }

  lemma DigitsUnique(g: nat, w: nat, x: nat, y: nat, z: nat)
    requires w < 64 && x < 64 && y < 64 && z < 64
    requires g == w * 0x40000 + x * 0x1000 + y * 64 + z
    ensures Digits(g) == [w, x, y, z]
  {
    assert g / 64 == w * 0x1000 + x * 64 + y;
    assert g / 64 / 64 == w * 64 + x;
  }

  /** The bits of three bytes, regrouped in sixes. */
  lemma Regrouped(a: nat, b: nat, c: nat)
    requires a < 256 && b < 256 && c < 256
    ensures Digits(a * 0x10000 + b * 0x100 + c)
            == [a / 4, a % 4 * 16 + b / 16, b % 16 * 4 + c / 64, c % 64]
  {
    DigitsUnique(a * 0x10000 + b * 0x100 + c, a / 4, a % 4 * 16 + b / 16, b % 16 * 4 + c / 64, c % 64);
  }

  lemma BytesUnique(a: nat, b: nat, c: nat)
    requires a < 256 && b < 256 && c < 256
    ensures var g := a * 0x10000 + b * 0x100 + c;
            g / 256 / 256 % 256 == a && g / 256 % 256 == b && g % 256 == c
  {
    assert (a * 0x10000 + b * 0x100 + c) / 256 == a * 256 + b;
  }

  lemma BytesOfGroup(s: seq<Byte>)
    requires 1 <= |s| <= 3
    ensures Bytes(Group(s))[..|s|] == s
  {
    BytesUnique(s[0], if |s| > 1 then s[1] else 0, if |s| > 2 then s[2] else 0);
  }

  lemma JoinedDigits(g: nat)
    requires g < 0x1000000
    ensures var d := Digits(g); Joined(d[0], d[1], d[2], d[3]) == g
  {
    assert g / 64 / 64 == g / 64 / 64 / 64 * 64 + g / 64 / 64 % 64;
    assert g / 64 == g / 64 / 64 * 64 + g / 64 % 64;
  }

  lemma DigitsOfGroup(s: seq<Byte>)
    requires 1 <= |s| <= 3
    ensures var d := Digits(Group(s));
            && Joined(d[0], d[1], d[2], d[3]) == Group(s)
            && (|s| < 3 ==> d[3] == 0) && (|s| < 2 ==> d[2] == 0)
  {
    JoinedDigits(Group(s));
    Regrouped(s[0], if |s| > 1 then s[1] else 0, if |s| > 2 then s[2] else 0);
  }

  lemma LetterBack(v: Sextet)
    ensures Letter(v) != '=' && Value(Letter(v)) == v
  {
    ValueOfLetter(v, 0);
    LettersDiffer(v, v);
  }

  /** The specification decoder undoes one block, padded or not. */
  lemma UnblockBlock(s: seq<Byte>)
    requires 1 <= |s| <= 3
    ensures Unblock(Block(s)) == s
  {
    var d := Digits(Group(s));
    DigitsOfGroup(s);
    BytesOfGroup(s);
    LetterBack(d[0]);
    LetterBack(d[1]);
    LetterBack(d[2]);
    LetterBack(d[3]);
  }

  ghost predicate Fours(f: seq<Byte> -> string) {
    forall s :: |f(s)| == 4
  }

  lemma {:induction false} BlocksShape(f: seq<Byte> -> string, s: seq<Byte>, k: nat)
    requires Fours(f) && k <= |s|
    ensures |InBlocks(f, s, k)| == (|s| - k + 2) / 3 * 4
    decreases |s| - k
  {
    Thirds(|s| - k);
    if k + 3 <= |s| {
      BlocksShape(f, s, k + 3);
    }
  }

  lemma Thirds(n: nat)
    ensures (n + 2) / 3 == if n == 0 then 0 else if n < 3 then 1 else (n - 3 + 2) / 3 + 1
  {}

  ghost predicate Undoes(g: string -> seq<Byte>, f: seq<Byte> -> string) {
    forall s :: 1 <= |s| <= 3 ==> g(f(s)) == s
  }

  lemma {:induction false} BlocksRoundTrip(f: seq<Byte> -> string, g: string -> seq<Byte>, s: seq<Byte>, k: nat)
    requires Fours(f) && Undoes(g, f) && k <= |s|
    ensures OutOfBlocks(g, InBlocks(f, s, k)) == s[k..]
    decreases |s| - k
  {
    if k < |s| {
      var n := Min(k + 3, |s|);
      var block, rest := f(s[k..n]), InBlocks(f, s, n);
      assert InBlocks(f, s, k) == block + rest;
      assert (block + rest)[..4] == block && (block + rest)[4..] == rest;
      BlocksRoundTrip(f, g, s, n);
    }
  }

  lemma EncodedLength(s: seq<Byte>)
    ensures |Encoded(s)| == (|s| + 2) / 3 * 4
  {
    BlocksShape(Block, s, 0);
  }

  lemma BlocksUndone()
    ensures Undoes(Unblock, Block)
  {
    forall s: seq<Byte> | 1 <= |s| <= 3
      ensures Unblock(Block(s)) == s
    {
      UnblockBlock(s);
    }
  }

  /** The specification decoder recovers every input. */
  lemma RoundTrip(s: seq<Byte>)
    ensures Decoded(Encoded(s)) == s
  {
    BlocksUndone();
    BlocksRoundTrip(Block, Unblock, s, 0);
  }

  function Pads(n: nat): nat { if n % 3 == 1 then 2 else if n % 3 == 2 then 1 else 0 }

  /** Padding signs stand at the end, as many as n bytes ask for. */
  predicate PaddedFor(t: string, n: nat) {
    forall k :: 0 <= k < |t| ==> (t[k] == '=' <==> k >= |t| - Pads(n))
  }

  ghost predicate PadsBlock(f: seq<Byte> -> string) {
    forall s :: 1 <= |s| <= 3 ==> PaddedFor(f(s), |s|)
  }

  lemma PaddedJoin(a: string, b: string, m: nat, n: nat)
    requires |a| == 4 && |b| == (n + 2) / 3 * 4 && PaddedFor(a, m) && PaddedFor(b, n)
    requires 1 <= m <= 3 && (n > 0 ==> m == 3)
    ensures PaddedFor(a + b, m + n)
  {
    if n == 0 {
      assert a + b == a;
    } else {
      PadsRepeat(n);
      PaddedAfter(a, b, Pads(n));
    }
  }

  lemma PadsRepeat(n: nat)
    requires n > 0
    ensures Pads(3) == 0 && Pads(3 + n) == Pads(n) <= (n + 2) / 3 * 4
  {}

  lemma PaddedAfter(a: string, b: string, pads: nat)
    requires (forall k :: 0 <= k < |a| ==> a[k] != '=') && pads <= |b|
    requires forall k :: 0 <= k < |b| ==> (b[k] == '=' <==> k >= |b| - pads)
    ensures forall k :: 0 <= k < |a + b| ==> ((a + b)[k] == '=' <==> k >= |a + b| - pads)
  {}

  lemma {:induction false} BlocksPadding(f: seq<Byte> -> string, s: seq<Byte>, k: nat)
    requires Fours(f) && PadsBlock(f) && k <= |s|
    ensures PaddedFor(InBlocks(f, s, k), |s| - k)
    decreases |s| - k
  {
    if k < |s| {
      var n := Min(k + 3, |s|);
      assert InBlocks(f, s, k) == f(s[k..n]) + InBlocks(f, s, n);
      BlocksShape(f, s, n);
      BlocksPadding(f, s, n);
      PaddedJoin(f(s[k..n]), InBlocks(f, s, n), n - k, |s| - n);
    }
  }

  lemma WrittenPadding(d: seq<Sextet>, n: nat)
    requires |d| == 4 && 1 <= n <= 3
    ensures PaddedFor(Written(d, n), n)
  {
    forall k | 0 <= k < 4
      ensures Letter(d[k]) != '='
    {
      LettersDiffer(d[k], d[k]);
    }
  }

  lemma BlocksPadded()
    ensures Fours(Block) && PadsBlock(Block)
  {
    forall s: seq<Byte> | 1 <= |s| <= 3
      ensures PaddedFor(Block(s), |s|)
    {
      WrittenPadding(Digits(Group(s)), |s|);
    }
  }

  lemma PaddingBy(f: seq<Byte> -> string, s: seq<Byte>, t: string)
    requires Fours(f) && PadsBlock(f) && t == InBlocks(f, s, 0)
    ensures PaddedFor(t, |s|)
  {
    BlocksPadding(f, s, 0);
  }

  /** Padding stands at the end only: none, one or two signs as the length asks. */
  lemma Padding(s: seq<Byte>)
    ensures PaddedFor(Encoded(s), |s|)
  {
    var t := Encoded(s);
    BlocksPadded();
    PaddingBy(Block, s, t);
    assert PaddedFor(t, |s|);
  }

  // ------------------------------------------------------------ the code

  // The table of the code.
  const CAPITALS: string := "ABCDEFGHIJKLMNOPQRSTUVWXYZ"
  const SMALLS: string := "abcdefghijklmnopqrstuvwxyz"
  const OTHERS: string := "0123456789+/"
  const TABLE: string := CAPITALS + SMALLS + OTHERS

  lemma CapitalAt(v: nat)
    requires v < 26
    ensures |CAPITALS| == 26 && CAPITALS[v] == Letter(v)
  {}

  lemma SmallAt(v: nat)
    requires v < 26
    ensures |SMALLS| == 26 && SMALLS[v] == Letter(26 + v)
  {}

  lemma OtherAt(v: nat)
    requires v < 12
    ensures |OTHERS| == 12 && OTHERS[v] == Letter(52 + v)
  {}

  lemma ThreeParts(a: string, b: string, c: string, v: nat)
    requires v < |a| + |b| + |c|
    ensures (a + b + c)[v] == if v < |a| then a[v] else if v < |a| + |b| then b[v - |a|] else c[v - |a| - |b|]
  {}

  /** The table holds the alphabet. */
  lemma TableIsAlphabet(v: Sextet)
    ensures |TABLE| == 64 && TABLE[v] == Letter(v)
  {
    CapitalAt(if v < 26 then v else 0);
    SmallAt(if 26 <= v < 52 then v - 26 else 0);
    OtherAt(if v < 52 then 0 else v - 52);
    ThreeParts(CAPITALS, SMALLS, OTHERS, v);
  }

  /** The four indices the code takes from three bytes by masks and shifts. */
  function Sextets(a: Byte, b: Byte, c: Byte): (d: seq<Sextet>)
    ensures d == Digits(Group([a, b, c]))
  {
    Regrouped(a, b, c);
    [First(a), Second(a, b), Third(b, c), Fourth(c)]
  }

  function First(a: Byte): (v: Sextet)
    ensures v == a / 4
  {
    HighMasks(a);
    ShiftRight(And(a, 0xfc), 2)
  }

  function Second(a: Byte, b: Byte): (v: Sextet)
    ensures v == a % 4 * 16 + b / 16
  {
    LowMasks(a);
    HighMasks(b);
    ShiftLeftIsProduct(And(a, 0x03), 4);
    Powers();
    ShiftLeft(And(a, 0x03), 4) + ShiftRight(And(b, 0xf0), 4)
  }

  function Third(b: Byte, c: Byte): (v: Sextet)
    ensures v == b % 16 * 4 + c / 64
  {
    LowMasks(b);
    HighMasks(c);
    ShiftLeftIsProduct(And(b, 0x0f), 2);
    Powers();
    ShiftLeft(And(b, 0x0f), 2) + ShiftRight(And(c, 0xc0), 6)
  }

  function Fourth(c: Byte): (v: Sextet)
    ensures v == c % 64
  {
    LowMasks(c);
    And(c, 0x3f)
  }

  lemma LowBits(a: nat)
    ensures ShiftRight(a, 2) == a / 4 && Low(a, 2) == a % 4
    ensures ShiftRight(a, 4) == a / 16 && Low(a, 4) == a % 16
    ensures ShiftRight(a, 6) == a / 64 && Low(a, 6) == a % 64
  {
    TwoBits(a);
    FourBits(a);
    SixBits(a);
  }

  lemma TwoBits(a: nat)
    ensures ShiftRight(a, 2) == a / 4 && Low(a, 2) == a % 4
  {
    QuarterBits(a, 0);
  }

  lemma FourBits(a: nat)
    ensures ShiftRight(a, 4) == a / 16 && Low(a, 4) == a % 16
  {
    QuarterBits(a, 2);
    TwoBits(a / 4);
  }

  lemma SixBits(a: nat)
    ensures ShiftRight(a, 6) == a / 64 && Low(a, 6) == a % 64
  {
    QuarterBits(a, 4);
    FourBits(a / 4);
  }

  lemma QuarterBits(a: nat, n: nat)
    ensures ShiftRight(a, n + 2) == ShiftRight(a / 4, n)
    ensures Low(a, n + 2) == 4 * Low(a / 4, n) + a % 4
  {
    assert a / 2 / 2 == a / 4;
  }

  lemma HighMasks(a: Byte)
    ensures ShiftRight(And(a, 0xfc), 2) == a / 4
    ensures ShiftRight(And(a, 0xf0), 4) == a / 16
    ensures ShiftRight(And(a, 0xc0), 6) == a / 64
  {
    TopBits(a, 6, 2);
    TopBits(a, 4, 4);
    TopBits(a, 2, 6);
    LowBits(a);
    Powers();
  }

  lemma LowMasks(a: Byte)
    ensures And(a, 0x03) == a % 4
    ensures And(a, 0x0f) == a % 16
    ensures And(a, 0x3f) == a % 64
  {
    AndLow(a, 2);
    AndLow(a, 4);
    AndLow(a, 6);
    LowBits(a);
    Powers();
  }

  lemma Powers()
    ensures Pow2(2) == 4 && Pow2(4) == 16 && Pow2(6) == 64 && Pow2(8) == 256
  {}

  lemma TopBits(a: Byte, m: nat, n: nat)
    requires m + n == 8
    ensures Pow2(8) >= Pow2(n)
    ensures ShiftRight(And(a, Pow2(8) - Pow2(n)), n) == ShiftRight(a, n)
  {
    assert Pow2(8) == 256;
    AndField(a, m, n);
    ShiftRightBound(a, m, n);
    LowOfSmall(ShiftRight(a, n), m);
    ShiftBack(ShiftRight(a, n), n);
  }

  lemma {:induction false} ShiftBack(a: nat, n: nat)
    ensures ShiftRight(ShiftLeft(a, n), n) == a
  {
    if n > 0 {
      ShiftBack(a, n - 1);
    }
  }

  ghost predicate IsBlock(f: seq<Byte> -> string) {
    forall s {:trigger Group(s)} :: s != [] ==> f(s) == Block(s)
  }

  /** Writes a group: four characters, or fewer and padding for a last group of one or two bytes. */
  method WriteGroup(three: array<Byte>, n: nat) returns (t: string)
    requires three.Length == 3 && 1 <= n <= 3
    ensures t == Block(three[..n])
  {
    LastGroup(three[..n]);
    var four := Sextets(three[0], if n > 1 then three[1] else 0, if n > 2 then three[2] else 0);
    TableIsAlphabet(four[0]);
    TableIsAlphabet(four[1]);
    TableIsAlphabet(four[2]);
    TableIsAlphabet(four[3]);
    t := [TABLE[four[0]], TABLE[four[1]], if n > 1 then TABLE[four[2]] else '=', if n > 2 then TABLE[four[3]] else '='];
  }

  method AddGroup(three: array<Byte>, n: nat, ghost f: seq<Byte> -> string) returns (t: string)
    requires three.Length == 3 && 1 <= n <= 3 && IsBlock(f)
    ensures t == f(three[..n])
  {
    assert Group(three[..n]) >= 0;
    t := WriteGroup(three, n);
  }

  /**
   Collects bytes three at a time and writes four characters for each full group; a last group of
   one or two bytes is completed with zeros and padded.
   */
  method EncodeGroups(input: seq<Byte>, ghost f: seq<Byte> -> string) returns (result: string)
    requires IsBlock(f)
    ensures result == InBlocks(f, input, 0)
  {
    result := "";
    var three := new Byte[3];
    var i := 0;
    NothingYet(f, input, three[..]);
    for k := 0 to |input|
      invariant Encoding(f, input, k, three[..], i, result)
    {
      i, result := TakeByte(input, k, three, i, result, f);
    }
    result := Finish(input, three, i, result, f);
  }

  /** A last group of one or two bytes. */
  method Finish(input: seq<Byte>, three: array<Byte>, i: nat, sofar: string, ghost f: seq<Byte> -> string)
    returns (result: string)
    requires IsBlock(f) && three.Length == 3 && Encoding(f, input, |input|, three[..], i, sofar)
    ensures result == InBlocks(f, input, 0)
  {
    if i == 0 { return sofar; }
    WholeGroup(three[..], i, input, |input|);
    var t := AddGroup(three, i, f);
    SofarNext(f, input, sofar, |input| - i, t);
    return sofar + t;
  }

  lemma NothingYet(f: seq<Byte> -> string, input: seq<Byte>, three: seq<Byte>)
    requires |three| == 3
    ensures Encoding(f, input, 0, three, 0, "")
  {}

  /** The bytes before `k` are written, but for the last `i` of them, which are collected. */
  ghost predicate Encoding(f: seq<Byte> -> string, input: seq<Byte>, k: nat, three: seq<Byte>, i: nat, result: string) {
    |three| == 3 && i < 3 && Collected(three, i, input, k) && Sofar(f, input, result, k - i)
  }

  /** One turn of the loop. */
  method TakeByte(input: seq<Byte>, k: nat, three: array<Byte>, i: nat, sofar: string, ghost f: seq<Byte> -> string)
    returns (next: nat, result: string)
    requires IsBlock(f) && k < |input| && three.Length == 3 && Encoding(f, input, k, three[..], i, sofar)
    modifies three
    ensures Encoding(f, input, k + 1, three[..], next, result)
  {
    CollectOne(three[..], i, input, k);
    three[i] := input[k];
    if i < 2 { return i + 1, sofar; }
    WholeGroup(three[..], 3, input, k + 1);
    var t := AddGroup(three, 3, f);
    SofarNext(f, input, sofar, k - 2, t);
    return 0, sofar + t;
  }

  /** The first `i` cells hold the bytes before position `k`. */
  ghost predicate Collected(three: seq<Byte>, i: nat, input: seq<Byte>, k: nat) {
    i <= |three| && i <= k <= |input| && forall j :: 0 <= j < i ==> three[j] == input[k - i + j]
  }

  lemma CollectOne(three: seq<Byte>, i: nat, input: seq<Byte>, k: nat)
    requires Collected(three, i, input, k) && i < |three| && k < |input|
    ensures Collected(three[i := input[k]], i + 1, input, k + 1)
  {}

  lemma WholeGroup(three: seq<Byte>, i: nat, input: seq<Byte>, k: nat)
    requires Collected(three, i, input, k)
    ensures three[..i] == input[k - i..k]
  {}

  /** The text for the bytes before `k` is written. */
  ghost predicate Sofar(f: seq<Byte> -> string, input: seq<Byte>, result: string, k: nat) {
    InBlocks(f, input, 0) == result + InBlocks(f, input, k)
  }

  lemma SofarNext(f: seq<Byte> -> string, input: seq<Byte>, result: string, k: nat, t: string)
    requires k < |input| && Sofar(f, input, result, k) && t == f(input[k..Min(k + 3, |input|)])
    ensures Sofar(f, input, result + t, k + 3)
    ensures k + 3 >= |input| ==> InBlocks(f, input, 0) == result + t
  {
    assert (result + t) + InBlocks(f, input, k + 3) == result + (t + InBlocks(f, input, k + 3));
  }

  method Base64Encode(input: seq<Byte>) returns (result: string)
    ensures result == Encoded(input)
  {
    result := EncodeGroups(input, Block);
  }

  lemma LastGroup(s: seq<Byte>)
    requires 1 <= |s| <= 3
    ensures Group(s) == Group([s[0], if |s| > 1 then s[1] else 0, if |s| > 2 then s[2] else 0])
  {}
}
