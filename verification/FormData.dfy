/** `http_request.cpp`: decoding of `application/x-www-form-urlencoded` bodies. */
module FormData {
  import opened Wrappers
  import opened Text

  function HexValue(c: char): Option<nat> {
    if '0' <= c <= '9' then Some(c as nat - '0' as nat)
    else if 'a' <= c <= 'f' then Some(c as nat - 'a' as nat + 10)
    else if 'A' <= c <= 'F' then Some(c as nat - 'A' as nat + 10)
    else None
  }

  /**
   `strtol` in base 16 on the two characters `a` and `b`, when it uses up both: two digits, or one
   digit after a space or a sign. The result is the value as a byte.
   */
  function TwoHex(a: char, b: char): Option<nat> {
    match (HexValue(a), HexValue(b))
    case (Some(x), Some(y)) => Some(16 * x + y)
    case (None, Some(y)) =>
      if IsSpace(a) || a == '+' then Some(y)
      else if a == '-' then Some((256 - y) % 256)
      else None
    case _ => None
  }

  /** The character that the text starts with once decoded, and how many characters stand for it. */
  function NextChar(s: string): (r: (char, nat))
    requires s != ""
    ensures 1 <= r.1 <= |s|
  {
    if s[0] == '%' && |s| > 2 && TwoHex(s[1], s[2]).Some? then (ByteChar(TwoHex(s[1], s[2]).value), 3)
    else (if s[0] == '+' then ' ' else s[0], 1)
  }

  /** `urlDecode`. A percent sign that starts no valid escape stands for itself. */
  function UrlDecode(s: string): string {
    if s == "" then "" else [NextChar(s).0] + UrlDecode(s[NextChar(s).1..])
  }

  function ByteChar(n: nat): char { (n % 256) as char }

  function AddPair(form: map<string, string>, pair: string): map<string, string> {
    match IndexOf(pair, '=', 0)
    case None => form
    case Some(eq) => form[UrlDecode(pair[..eq]) := UrlDecode(pair[eq + 1..])]
  }

  /** The pairs of `body` from `start` on, separated by ampersands. */
  function Split(body: string, start: nat): seq<string>
    requires start <= |body|
    decreases |body| - start
  {
    match IndexOf(body, '&', start)
    case None => [body[start..]]
    case Some(end) => [body[start..end]] + Split(body, end + 1)
  }

  function AddPairs(form: map<string, string>, pairs: seq<string>): map<string, string>
    decreases pairs
  {
    if pairs == [] then form else AddPairs(AddPair(form, pairs[0]), pairs[1..])
  }

  function ParseForm(body: string): map<string, string> { AddPairs(map[], Split(body, 0)) }

  // ------------------------------------------------------------------- encoding

  /** Section 2.3 of RFC 3986. */
  predicate Unreserved(c: char) {
    'a' <= c <= 'z' || 'A' <= c <= 'Z' || '0' <= c <= '9' || c == '-' || c == '.' || c == '_' || c == '~'
  }

  function HexDigit(n: nat): char
    requires n < 16
  {
    if n < 10 then ('0' as nat + n) as char else ('A' as nat + n - 10) as char
  }

  predicate IsBytes(s: string) { forall i :: 0 <= i < |s| ==> s[i] as nat < 256 }

  /** Section 2.1 of RFC 3986, with a space sent as a plus sign. */
  function EncodeChar(c: char): string
    requires c as nat < 256
  {
    if c == ' ' then "+" else if Unreserved(c) then [c]
    else ['%', HexDigit(c as nat / 16), HexDigit(c as nat % 16)]
  }

  function UrlEncode(s: string): string
    requires IsBytes(s)
  {
    if s == "" then "" else EncodeChar(s[0]) + UrlEncode(s[1..])
  }

  datatype Field = Field(key: string, value: string)

  ghost predicate AllBytes(fields: seq<Field>) {
    forall i :: 0 <= i < |fields| ==> IsBytes(fields[i].key) && IsBytes(fields[i].value)
  }

  function EncodeField(f: Field): string
    requires IsBytes(f.key) && IsBytes(f.value)
  {
    UrlEncode(f.key) + "=" + UrlEncode(f.value)
  }

  function Join(pairs: seq<string>): string {
    if pairs == [] then "" else if |pairs| == 1 then pairs[0] else pairs[0] + "&" + Join(pairs[1..])
  }

  ghost function EncodeFields(fields: seq<Field>): seq<string>
    requires AllBytes(fields)
  {
    if fields == [] then [] else [EncodeField(fields[0])] + EncodeFields(fields[1..])
  }

  ghost function EncodeForm(fields: seq<Field>): string
    requires AllBytes(fields)
  {
    Join(EncodeFields(fields))
  }

  /** The fields entered in order: a later one with the same key replaces an earlier one. */
  function LastWins(form: map<string, string>, fields: seq<Field>): map<string, string>
    decreases fields
  {
    if fields == [] then form else LastWins(form[fields[0].key := fields[0].value], fields[1..])
  }

  // ------------------------------------------------------------------ round trip

  lemma HexDigitValue(n: nat)
    requires n < 16
    ensures HexValue(HexDigit(n)) == Some(n)
  {}

  lemma DecodeEncodedChar(c: char, rest: string)
    requires c as nat < 256
    ensures UrlDecode(EncodeChar(c) + rest) == [c] + UrlDecode(rest)
  {
    var s := EncodeChar(c) + rest;
    assert s[|EncodeChar(c)|..] == rest;
    if c != ' ' && !Unreserved(c) {
      HexDigitValue(c as nat / 16);
      HexDigitValue(c as nat % 16);
      assert s[0] == '%' && s[1] == HexDigit(c as nat / 16) && s[2] == HexDigit(c as nat % 16);
      assert TwoHex(s[1], s[2]) == Some(c as nat);
    }
    assert NextChar(s) == (c, |EncodeChar(c)|);
  }

  lemma {:induction false} DecodeEncoded(s: string)
    requires IsBytes(s)
    ensures UrlDecode(UrlEncode(s)) == s
  {
    if s != "" {
      DecodeEncodedChar(s[0], UrlEncode(s[1..]));
      DecodeEncoded(s[1..]);
    }
  }

  /** Separators never occur in encoded text. */
  lemma {:induction false} EncodedIsPlain(s: string)
    requires IsBytes(s)
    ensures '&' !in UrlEncode(s) && '=' !in UrlEncode(s)
  {
    if s != "" {
      EncodedIsPlain(s[1..]);
    }
  }

  lemma PairParts(key: string, value: string)
    requires '=' !in key
    ensures var pair := key + "=" + value;
            IndexOf(pair, '=', 0) == Some(|key|) && pair[..|key|] == key && pair[|key| + 1..] == value
  {
    var pair := key + "=" + value;
    assert pair[|key|] == '=' && forall i :: 0 <= i < |key| ==> pair[i] == key[i];
  }

  lemma AddPairOf(form: map<string, string>, key: string, value: string)
    requires '=' !in key
    ensures AddPair(form, key + "=" + value) == form[UrlDecode(key) := UrlDecode(value)]
  {
    PairParts(key, value);
  }

  lemma AddEncodedField(form: map<string, string>, f: Field)
    requires IsBytes(f.key) && IsBytes(f.value)
    ensures AddPair(form, EncodeField(f)) == form[f.key := f.value]
    ensures '&' !in EncodeField(f)
  {
    EncodedIsPlain(f.key);
    EncodedIsPlain(f.value);
    AddPairOf(form, UrlEncode(f.key), UrlEncode(f.value));
    DecodeEncoded(f.key);
    DecodeEncoded(f.value);
  }

  lemma FirstPair(body: string, start: nat, pairs: seq<string>)
    requires |pairs| > 1 && start <= |body| && body[start..] == Join(pairs)
    ensures var end := start + |pairs[0]|;
            end < |body| && body[start..end] == pairs[0] && body[end] == '&' && body[end + 1..] == Join(pairs[1..])
  {
    var pair, later, rest := pairs[0], Join(pairs[1..]), body[start..];
    assert rest[..|pair|] == pair && rest[|pair|] == '&' && rest[|pair| + 1..] == later;
    assert rest[|pair| + 1..] == body[start + |pair| + 1..];
    assert rest[..|pair|] == body[start..start + |pair|];
  }

  predicate NoJoints(pairs: seq<string>) {
    forall i :: 0 <= i < |pairs| ==> '&' !in pairs[i]
  }

  /** Splitting takes a joined body apart at exactly the joints. */
  lemma {:induction false} SplitJoined(body: string, start: nat, pairs: seq<string>)
    requires pairs != [] && start <= |body| && body[start..] == Join(pairs)
    requires NoJoints(pairs)
    ensures Split(body, start) == pairs
    decreases pairs
  {
    if |pairs| == 1 {
      NoMoreJoints(body, start, pairs[0]);
    } else {
      var end := start + |pairs[0]|;
      SplitAt(body, start, end, pairs[0]) by {
        FirstPair(body, start, pairs);
        FirstJoint(body, start, end, pairs[0]);
      }
      SplitJoined(body, end + 1, pairs[1..]) by {
        FirstPair(body, start, pairs);
      }
      assert pairs == [pairs[0]] + pairs[1..];
    }
  }

  lemma SplitAt(body: string, start: nat, end: nat, pair: string)
    requires start <= end < |body| && IndexOf(body, '&', start) == Some(end) && body[start..end] == pair
    ensures Split(body, start) == [pair] + Split(body, end + 1)
  {}

  lemma NoMoreJoints(body: string, start: nat, pair: string)
    requires start <= |body| && body[start..] == pair && '&' !in pair
    ensures IndexOf(body, '&', start) == None
  {
    assert forall i :: start <= i < |body| ==> body[i] == pair[i - start];
  }

  lemma FirstJoint(body: string, start: nat, end: nat, pair: string)
    requires start <= end < |body| && body[start..end] == pair && '&' !in pair && body[end] == '&'
    ensures IndexOf(body, '&', start) == Some(end)
  {
    assert forall i :: start <= i < end ==> body[i] == pair[i - start];
  }

  lemma {:induction false} AddEncodedFields(form: map<string, string>, fields: seq<Field>)
    requires AllBytes(fields)
    ensures AddPairs(form, EncodeFields(fields)) == LastWins(form, fields)
    ensures NoJoints(EncodeFields(fields))
    decreases fields
  {
    if fields != [] {
      var f, pairs := fields[0], EncodeFields(fields);
      AddEncodedField(form, f);
      assert pairs[0] == EncodeField(f) && pairs[1..] == EncodeFields(fields[1..]);
      AddEncodedFields(form[f.key := f.value], fields[1..]);
    }
  }

  /** Form decoding undoes form encoding, for every sequence of fields. */
  lemma FormRoundTrip(fields: seq<Field>)
    requires AllBytes(fields)
    ensures ParseForm(EncodeForm(fields)) == LastWins(map[], fields)
  {
    var body := EncodeForm(fields);
    assert body[0..] == body;
    AddEncodedFields(map[], fields);
    if fields == [] {
      assert Split(body, 0) == [""];
    } else {
      SplitJoined(body, 0, EncodeFields(fields));
    }
  }

  // ------------------------------------------------------- what no encoder sends

  function LowerHexDigit(n: nat): char
    requires n < 16
  {
    if n < 10 then ('0' as nat + n) as char else ('a' as nat + n - 10) as char
  }

  lemma LowerHexValue(n: nat)
    requires n < 16
    ensures HexValue(LowerHexDigit(n)) == Some(n)
  {}

  /** Escapes may be written in either case, digit by digit. */
  lemma EscapeDecoded(x: nat, y: nat, a: char, b: char, rest: string)
    requires x < 16 && y < 16
    requires a == HexDigit(x) || a == LowerHexDigit(x)
    requires b == HexDigit(y) || b == LowerHexDigit(y)
    ensures UrlDecode(['%', a, b] + rest) == [(16 * x + y) as char] + UrlDecode(rest)
  {
    HexDigitValue(x);
    HexDigitValue(y);
    LowerHexValue(x);
    LowerHexValue(y);
    var s := ['%', a, b] + rest;
    assert NextChar(s) == ((16 * x + y) as char, 3) && s[3..] == rest;
  }

  /** As `strtol` reads it: a space or a sign and one digit are an escape too, and a minus sign negates the byte. */
  lemma SignedEscapeDecoded(y: nat, sign: char, b: char, rest: string)
    requires y < 16 && (b == HexDigit(y) || b == LowerHexDigit(y))
    requires IsSpace(sign) || sign == '+' || sign == '-'
    ensures UrlDecode(['%', sign, b] + rest) == [(if sign == '-' then (256 - y) % 256 else y) as char] + UrlDecode(rest)
  {
    HexDigitValue(y);
    LowerHexValue(y);
    var s := ['%', sign, b] + rest;
    assert HexValue(sign) == None;
    assert NextChar(s) == ((if sign == '-' then (256 - y) % 256 else y) as char, 3) && s[3..] == rest;
  }

  predicate IsHex(c: char) { c in "0123456789abcdefABCDEF" }

  lemma HexIff(c: char)
    ensures HexValue(c).Some? <==> IsHex(c)
  {}

  /** A percent sign that two hexadecimal digits, or a space or sign and one, do not follow is kept. */
  lemma PercentKept(rest: string)
    requires |rest| < 2 || !IsHex(rest[1]) || !(IsHex(rest[0]) || IsSpace(rest[0]) || rest[0] == '+' || rest[0] == '-')
    ensures UrlDecode("%" + rest) == "%" + UrlDecode(rest)
  {
    var s := "%" + rest;
    assert s[1..] == rest;
    if |rest| >= 2 {
      assert s[1] == rest[0] && s[2] == rest[1];
      HexIff(rest[0]);
      HexIff(rest[1]);
    }
  }

  /** Everything else stands for itself, except plus signs. */
  lemma CharacterKept(c: char, rest: string)
    requires c != '%'
    ensures UrlDecode([c] + rest) == [if c == '+' then ' ' else c] + UrlDecode(rest)
  {
    assert ([c] + rest)[1..] == rest;
  }

  /** A pair is cut at its first equals sign; without one it is ignored. */
  lemma PairEntered(form: map<string, string>, pair: string, key: string, value: string)
    requires '=' !in key
    ensures AddPair(form, key + "=" + value) == form[UrlDecode(key) := UrlDecode(value)]
    ensures '=' !in pair ==> AddPair(form, pair) == form
  {
    AddPairOf(form, key, value);
  }

  /** A body is its pairs entered one after the other, whatever they are. */
  lemma PairsInOrder(pairs: seq<string>)
    requires pairs != [] && NoJoints(pairs)
    ensures ParseForm(Join(pairs)) == AddPairs(map[], pairs)
  {
    assert Join(pairs)[0..] == Join(pairs);
    SplitJoined(Join(pairs), 0, pairs);
  }

  // -------------------------------------------------------------- implementation

  lemma UrlDecodeStep(done: string, s: string)
    requires s != ""
    ensures done + UrlDecode(s) == (done + [NextChar(s).0]) + UrlDecode(s[NextChar(s).1..])
  {}

  method UrlDecodeLoop(s: string) returns (result: string)
    ensures result == UrlDecode(s)
  {
    result := "";
    var i := 0;
    assert s[0..] == s;
    while i < |s|
      invariant 0 <= i <= |s|
      invariant UrlDecode(s) == result + UrlDecode(s[i..])
    {
      var c, n := DecodeNext(s, i);
      UrlDecodeStep(result, s[i..]);
      assert s[i..][n..] == s[i + n..];
      result := result + [c];
      i := i + n;
    }
  }

  /** The body of the loop: the next character and how much of the input it takes. */
  method DecodeNext(s: string, i: nat) returns (c: char, n: nat)
    requires i < |s|
    ensures (c, n) == NextChar(s[i..]) && 0 < n <= |s| - i
  {
    c, n := s[i], 1;
    if s[i] == '%' && i + 2 < |s| {
      var val := TwoHex(s[i + 1], s[i + 2]);
      if val.Some? {
        c, n := ByteChar(val.value), 3;
      }
    } else if s[i] == '+' {
      c := ' ';
    }
  }

  /** The pair that starts at `start`, where the next ampersand is at `end`. */
  function PairAt(body: string, start: nat, end: Option<nat>): string
    requires start <= |body| && (end.Some? ==> start <= end.value < |body|)
  {
    if end.None? then body[start..] else body[start..end.value]
  }

  lemma SplitFirst(body: string, start: nat, end: Option<nat>)
    requires start <= |body| && end == IndexOf(body, '&', start)
    ensures Split(body, start)
            == [PairAt(body, start, end)] + if end.None? then [] else Split(body, end.value + 1)
  {}

  lemma AddFirst(form: map<string, string>, pair: string, pairs: seq<string>)
    ensures AddPairs(form, [pair] + pairs) == AddPairs(AddPair(form, pair), pairs)
  {
    assert ([pair] + pairs)[1..] == pairs;
  }

  /** The pairs from `start` on, entered. */
  function Entering(form: map<string, string>, body: string, start: nat): map<string, string>
    requires start <= |body|
  {
    AddPairs(form, Split(body, start))
  }

  lemma EnteringStep(form: map<string, string>, body: string, start: nat, end: Option<nat>)
    requires start <= |body| && end == IndexOf(body, '&', start)
    ensures var next := AddPair(form, PairAt(body, start, end));
            Entering(form, body, start) == if end.None? then next else Entering(next, body, end.value + 1)
  {
    SplitFirst(body, start, end);
    AddFirst(form, PairAt(body, start, end), if end.None? then [] else Split(body, end.value + 1));
  }

  method ParseFormData(body: string) returns (form: map<string, string>)
    ensures form == ParseForm(body)
  {
    form := map[];
    var start, end := 0, IndexOf(body, '&', 0);
    ghost var goal := Entering(form, body, 0);
    while true
      invariant 0 <= start <= |body| && end == IndexOf(body, '&', start)
      invariant Entering(form, body, start) == goal
      decreases |body| - start
    {
      EnteringStep(form, body, start, end);
      form := EnterPair(form, PairAt(body, start, end));
      if end.None? { break; }
      start := end.value + 1;
      end := IndexOf(body, '&', start);
    }
  }

  method EnterPair(form: map<string, string>, pair: string) returns (r: map<string, string>)
    ensures r == AddPair(form, pair)
  {
    r := form;
    var eq := IndexOf(pair, '=', 0);
    if eq.Some? {
      var key := UrlDecodeLoop(pair[..eq.value]);
      var value := UrlDecodeLoop(pair[eq.value + 1..]);
      r := r[key := value];
    }
  }
}
