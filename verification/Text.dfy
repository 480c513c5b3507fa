/** The C and C++ library routines on character strings that the HTTP code calls. */
module Text {

  import opened Wrappers

  predicate Occurs(s: string, pattern: string, i: nat) {
    i + |pattern| <= |s| && s[i..i + |pattern|] == pattern
  }

  /** `std::string::find`: the least position, from `from` on, at which `pattern` occurs. */
  function Find(s: string, pattern: string, from: nat): (r: Option<nat>)
    ensures r.Some? ==> from <= r.value && Occurs(s, pattern, r.value)
    ensures forall i :: from <= i && Occurs(s, pattern, i) ==> r.Some? && r.value <= i
    decreases |s| - from
  {
    if from + |pattern| > |s| then None
    else if Occurs(s, pattern, from) then Some(from)
    else Find(s, pattern, from + 1)
  }

  /** `std::string::find` of a character. */
  function IndexOf(s: string, c: char, from: nat): (r: Option<nat>)
    ensures r.None? ==> forall i :: from <= i < |s| ==> s[i] != c
    ensures r.Some? ==> from <= r.value < |s| && s[r.value] == c && forall i :: from <= i < r.value ==> s[i] != c
    decreases |s| - from
  {
    if from >= |s| then None else if s[from] == c then Some(from) else IndexOf(s, c, from + 1)
  }

  predicate Contains(s: string, pattern: string) { Find(s, pattern, 0).Some? }

  /** A match is not moved by text that follows it. */
  lemma {:induction false} FindStable(s: string, x: string, pattern: string, from: nat)
    requires Find(s, pattern, from).Some?
    ensures Find(s + x, pattern, from) == Find(s, pattern, from)
    decreases |s| - from
  {
    assert (s + x)[from..from + |pattern|] == s[from..from + |pattern|];
    if !Occurs(s, pattern, from) {
      FindStable(s, x, pattern, from + 1);
    }
  }

  /** Nor does it depend on that text. */
  lemma {:induction false} FindLocal(s: string, pattern: string, from: nat, n: nat)
    requires Find(s, pattern, from).Some? && Find(s, pattern, from).value + |pattern| <= n <= |s|
    ensures Find(s[..n], pattern, from) == Find(s, pattern, from)
    decreases |s| - from
  {
    assert s[..n][from..from + |pattern|] == s[from..from + |pattern|];
    if !Occurs(s, pattern, from) {
      FindLocal(s, pattern, from + 1, n);
    }
  }

  /** `isspace` in the C locale. */
  predicate IsSpace(c: char) { c == ' ' || '\t' <= c <= '\r' }

  function SkipSpaces(s: string): string {
    if s != "" && IsSpace(s[0]) then SkipSpaces(s[1..]) else s
  }

  function Word(s: string): string {
    if s != "" && !IsSpace(s[0]) then [s[0]] + Word(s[1..]) else ""
  }

  lemma WordLength(s: string)
    ensures |Word(s)| <= |s|
  {}

  /** `stream >> word`: the next word and what follows it, or None if only space is left. */
  function NextWord(s: string): Option<(string, string)> {
    var t := SkipSpaces(s);
    WordLength(t);
    if t == "" then None else Some((Word(t), t[|Word(t)|..]))
  }

  function StripLeft(s: string): string {
    if s != "" && (s[0] == ' ' || s[0] == '\t') then StripLeft(s[1..]) else s
  }

  function LowerChar(c: char): char {
    if 'A' <= c <= 'Z' then (c as int + 32) as char else c
  }

  function Lower(s: string): string {
    if s == "" then "" else [LowerChar(s[0])] + Lower(s[1..])
  }

  predicate IsDigit(c: char) { '0' <= c <= '9' }

  /** The value of the leading decimal digits. */
  function Digits(s: string, acc: nat): nat {
    if s != "" && IsDigit(s[0]) then Digits(s[1..], acc * 10 + (s[0] as nat - '0' as nat)) else acc
  }

  const ULONG_END: nat := 0x1_0000_0000_0000_0000

  /**
   `std::stoul` in base 10: leading space, an optional sign, then at least one digit; whatever
   follows is ignored. None where it throws. A minus sign negates modulo 2^64.
   */
  function Stoul(s: string): Option<nat> {
    var t := SkipSpaces(s);
    var negative := t != "" && t[0] == '-';
    var d := if t != "" && (t[0] == '-' || t[0] == '+') then t[1..] else t;
    if d == "" || !IsDigit(d[0]) then None
    else
      var v := Digits(d, 0);
      if v >= ULONG_END then None
      else if negative && v > 0 then Some(ULONG_END - v)
      else Some(v)
  }

  // ------------------------------------------------------------ letters and blanks

  lemma {:induction false} LowerAt(s: string, i: nat)
    requires i < |s|
    ensures |Lower(s)| == |s|
    ensures 65 <= s[i] as int <= 90 ==> Lower(s)[i] as int == s[i] as int + 32
    ensures !(65 <= s[i] as int <= 90) ==> Lower(s)[i] == s[i]
  {
    LowerLength(s[1..]);
    if i > 0 {
      LowerAt(s[1..], i - 1);
    }
  }

  lemma LowerLength(s: string)
    ensures |Lower(s)| == |s|
  {}

  lemma {:induction false} BlanksStripped(pad: string, s: string)
    requires forall i :: 0 <= i < |pad| ==> pad[i] == ' ' || pad[i] == '\t'
    requires s == "" || (s[0] != ' ' && s[0] != '\t')
    ensures StripLeft(pad + s) == s
  {
    if pad == "" {
      assert pad + s == s;
    } else {
      BlanksStripped(pad[1..], s);
      assert (pad + s)[1..] == pad[1..] + s;
    }
  }

  // ------------------------------------------------------------ what stoul reads

  predicate AllSpaces(s: string) {
    forall i :: 0 <= i < |s| ==> s[i] == ' ' || 9 <= s[i] as int <= 13
  }

  predicate AllDigits(s: string) {
    forall i :: 0 <= i < |s| ==> IsDigit(s[i])
  }

  function DigitChar(d: nat): char
    requires d < 10
  {
    if d == 0 then '0' else if d == 1 then '1' else if d == 2 then '2' else if d == 3 then '3' else if d == 4 then '4'
    else if d == 5 then '5' else if d == 6 then '6' else if d == 7 then '7' else if d == 8 then '8' else '9'
  }

  /** A number as it is written, without leading zeros. */
  function Decimal(n: nat): string {
    if n < 10 then [DigitChar(n)] else Decimal(n / 10) + [DigitChar(n % 10)]
  }

  function DigitValue(c: char): (d: nat)
    requires IsDigit(c)
    ensures d < 10 && DigitChar(d) == c
  {
    c as nat - '0' as nat
  }

  lemma DigitBack(d: nat)
    requires d < 10
    ensures IsDigit(DigitChar(d)) && DigitValue(DigitChar(d)) == d
  {}

  /** The number that digits stand for, by position: the last one counts ones, those before it tens. */
  function Value(digits: string): nat
    requires AllDigits(digits)
  {
    if digits == "" then 0
    else 10 * Value(digits[..|digits| - 1]) + DigitValue(digits[|digits| - 1])
  }

  lemma ValueSnoc(init: string, last: char)
    requires AllDigits(init) && IsDigit(last)
    ensures AllDigits(init + [last]) && Value(init + [last]) == 10 * Value(init) + DigitValue(last)
  {
    assert (init + [last])[..|init|] == init;
  }

  lemma {:induction false} ValueOfDecimal(n: nat)
    ensures Decimal(n) != "" && AllDigits(Decimal(n)) && Value(Decimal(n)) == n
  {
    DigitBack(n % 10);
    if n < 10 {
      ValueSnoc("", DigitChar(n));
    } else {
      ValueOfDecimal(n / 10);
      ValueSnoc(Decimal(n / 10), DigitChar(n % 10));
    }
  }

  lemma DigitPast(last: char, tail: string, acc: nat)
    requires IsDigit(last)
    ensures Digits([last] + tail, acc) == Digits(tail, 10 * acc + DigitValue(last))
  {
    assert ([last] + tail)[1..] == tail;
  }

  lemma {:induction false} DigitsPast(digits: string, tail: string)
    requires AllDigits(digits)
    ensures Digits(digits + tail, 0) == Digits(tail, Value(digits))
  {
    if digits == "" {
      assert digits + tail == tail;
    } else {
      var init, last := digits[..|digits| - 1], digits[|digits| - 1];
      DigitsPast(init, [last] + tail);
      DigitPast(last, tail, Value(init));
      assert digits + tail == init + ([last] + tail);
    }
  }

  lemma {:induction false} SpacesSkipped(pad: string, s: string)
    requires AllSpaces(pad) && (s == "" || !IsSpace(s[0]))
    ensures SkipSpaces(pad + s) == s
  {
    if pad == "" {
      assert pad + s == s;
    } else {
      SpacesSkipped(pad[1..], s);
      assert (pad + s)[1..] == pad[1..] + s;
    }
  }

  predicate EndsNumber(tail: string) { tail == "" || !IsDigit(tail[0]) }

  /** A number and what follows it, with its sign. */
  function Signed(sign: string, digits: string, tail: string): string {
    sign + (digits + tail)
  }

  function StoulValue(negative: bool, v: nat): Option<nat> {
    if v >= ULONG_END then None else if negative then Some((ULONG_END - v) % ULONG_END) else Some(v)
  }

  lemma UnsignedValue(d: string)
    requires d != "" && IsDigit(d[0])
    ensures Stoul(d) == StoulValue(false, Digits(d, 0))
  {}

  lemma SignValue(sign: char, d: string)
    requires (sign == '+' || sign == '-') && d != "" && IsDigit(d[0])
    ensures Stoul([sign] + d) == StoulValue(sign == '-', Digits(d, 0))
  {
    assert ([sign] + d)[1..] == d;
  }

  lemma SignedValue(sign: string, digits: string, tail: string)
    requires sign in {"", "+", "-"} && digits != "" && AllDigits(digits) && EndsNumber(tail)
    ensures !IsSpace(Signed(sign, digits, tail)[0])
    ensures Stoul(Signed(sign, digits, tail)) == StoulValue(sign == "-", Value(digits))
  {
    DigitsPast(digits, tail);
    var d := digits + tail;
    assert IsDigit(d[0]);
    if sign == "" {
      assert Signed(sign, digits, tail) == d;
      UnsignedValue(d);
    } else {
      SignValue(sign[0], d);
      assert sign == [sign[0]];
    }
  }

  /** Stoul does not see leading space. */
  lemma StoulAfter(pad: string, s: string)
    requires AllSpaces(pad) && (s == "" || !IsSpace(s[0]))
    ensures Stoul(pad + s) == Stoul(s)
  {
    SpacesSkipped(pad, s);
  }

  /** What stoul makes of space, a sign, digits and anything that is no digit. */
  lemma StoulReads(pad: string, sign: string, digits: string, tail: string)
    requires AllSpaces(pad) && sign in {"", "+", "-"} && digits != "" && AllDigits(digits) && EndsNumber(tail)
    ensures Stoul(pad + Signed(sign, digits, tail)) == StoulValue(sign == "-", Value(digits))
  {
    SignedValue(sign, digits, tail);
    StoulAfter(pad, Signed(sign, digits, tail));
  }

  /** It throws where no digit follows the space and the sign. */
  lemma StoulThrows(pad: string, sign: string, tail: string)
    requires AllSpaces(pad) && sign in {"", "+", "-"} && EndsNumber(tail)
    requires sign == "" && tail != "" ==> !IsSpace(tail[0]) && tail[0] != '+' && tail[0] != '-'
    ensures Stoul(pad + (sign + tail)) == None
  {
    var s := sign + tail;
    if sign == "" {
      assert s == tail;
    } else {
      assert s[1..] == tail;
    }
    StoulAfter(pad, s);
  }

  /** A number below 2^64 is read as it was written, whatever follows it. */
  lemma StoulOfDecimal(n: nat, tail: string)
    requires EndsNumber(tail)
    ensures Stoul(Decimal(n) + tail) == if n < ULONG_END then Some(n) else None
  {
    ValueOfDecimal(n);
    SignedValue("", Decimal(n), tail);
    assert "" + (Decimal(n) + tail) == Decimal(n) + tail;
  }
}
