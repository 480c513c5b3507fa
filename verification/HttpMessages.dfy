/**
 Requests written out as section 2.1 of RFC 9112 has them, and exactly what
 `ParseHttpRequest` makes of them in whatever stream they stand. The last header
 field is always lost, and with it the body when it is the one that gives the length.
 */
module HttpMessages {
  import opened Wrappers
  import opened Text
  import opened HttpFraming
  import opened StreamReader

  datatype Field = Field(name: string, value: string)

  datatype Message = Message(verb: string, path: string, version: string, fields: seq<Field>, body: string)

  function Line(f: Field): string { f.name + ": " + f.value }

  function LinesOf(fields: seq<Field>): (lines: seq<string>)
    ensures |lines| == |fields|
  {
    seq(|fields|, i requires 0 <= i < |fields| => Line(fields[i]))
  }

  /** The lines from the k-th on, each after a line end. */
  function Lines(lines: seq<string>, k: nat): string
    decreases |lines| - k
  {
    if k >= |lines| then "" else CRLF + lines[k] + Lines(lines, k + 1)
  }

  function StartLine(m: Message): string { m.verb + " " + m.path + " " + m.version }

  function Section(m: Message): string { StartLine(m) + Lines(LinesOf(m.fields), 0) }

  function Written(m: Message): string { Section(m) + BLANK_LINE + m.body }

  predicate NoReturn(s: string) { forall i :: 0 <= i < |s| ==> s[i] != '\r' }

  predicate IsWord(s: string) { s != "" && forall i :: 0 <= i < |s| ==> !IsSpace(s[i]) }

  predicate ProperField(f: Field) {
    && NoReturn(f.name) && NoReturn(f.value)
    && (forall i :: 0 <= i < |f.name| ==> f.name[i] != ':')
    && (f.value != "" ==> f.value[0] != ' ' && f.value[0] != '\t')
  }

  predicate AllProper(fields: seq<Field>) {
    forall i :: 0 <= i < |fields| ==> ProperField(fields[i])
  }

  predicate Proper(m: Message) {
    && IsWord(m.verb) && IsWord(m.path) && IsWord(m.version)
    && AllProper(m.fields)
  }

  /** The first n fields, later ones of the same name replacing earlier ones. */
  function Recorded(fields: seq<Field>, n: nat): Headers
    requires n <= |fields|
  {
    if n == 0 then map[] else Recorded(fields, n - 1)[fields[n - 1].name := fields[n - 1].value]
  }

  // ------------------------------------------------------------ where the section ends

  /** Every carriage return starts a line end that is followed by something else. */
  predicate NoBlankLine(s: string) {
    forall i :: 0 <= i < |s| && s[i] == '\r' ==> i + 2 < |s| && s[i + 2] != '\r'
  }

  /** Lines that cannot be taken for line ends. */
  predicate Solid(lines: seq<string>) {
    forall i :: 0 <= i < |lines| ==> NoReturn(lines[i]) && lines[i] != ""
  }

  lemma FieldLinesSolid(fields: seq<Field>)
    requires AllProper(fields)
    ensures Solid(LinesOf(fields))
  {
    forall i | 0 <= i < |fields|
      ensures NoReturn(Line(fields[i])) && Line(fields[i]) != ""
    {
      assert ProperField(fields[i]);
    }
  }

  lemma NoBlankJoin(a: string, b: string)
    requires NoReturn(a) && NoBlankLine(b)
    ensures NoBlankLine(a + b)
  {}

  lemma NoBlankEnd(line: string, rest: string)
    requires NoReturn(line) && line != "" && NoBlankLine(rest)
    ensures NoBlankLine(CRLF + line + rest)
  {
    NoBlankJoin("\n" + line, rest);
    assert CRLF + line + rest == "\r" + ("\n" + line + rest);
  }

  lemma {:induction false} LinesHaveNoBlank(lines: seq<string>, k: nat)
    requires Solid(lines)
    ensures NoBlankLine(Lines(lines, k))
    decreases |lines| - k
  {
    if k < |lines| {
      LinesHaveNoBlank(lines, k + 1);
      NoBlankEnd(lines[k], Lines(lines, k + 1));
    }
  }

  lemma StartLineProper(m: Message)
    requires Proper(m)
    ensures NoReturn(StartLine(m))
  {}

  lemma OccursChar(s: string, pattern: string, i: nat, k: nat)
    requires k < |pattern|
    ensures Occurs(s, pattern, i) ==> i + k < |s| && s[i + k] == pattern[k]
  {
    if Occurs(s, pattern, i) {
      assert s[i..i + |pattern|][k] == pattern[k];
    }
  }

  /** The least position of a pattern, when it is known not to occur before. */
  lemma {:induction false} FoundAt(s: string, pattern: string, from: nat, n: nat)
    requires from <= n && Occurs(s, pattern, n) && forall i :: from <= i < n ==> !Occurs(s, pattern, i)
    ensures Find(s, pattern, from) == Some(n)
  {
  }

  lemma SectionEnds(m: Message, rest: string)
    requires Proper(m)
    ensures Find(Written(m) + rest, BLANK_LINE, 0) == Some(|Section(m)|)
  {
    var section, s := Section(m), Written(m) + rest;
    StartLineProper(m);
    FieldLinesSolid(m.fields);
    LinesHaveNoBlank(LinesOf(m.fields), 0);
    NoBlankJoin(StartLine(m), Lines(LinesOf(m.fields), 0));
    assert s == section + (BLANK_LINE + m.body + rest);
    forall i | 0 <= i < |section|
      ensures !Occurs(s, BLANK_LINE, i)
    {
      OccursChar(s, BLANK_LINE, i, 0);
      OccursChar(s, BLANK_LINE, i, 2);
    }
    assert s[|section|..|section| + 4] == BLANK_LINE;
    FoundAt(s, BLANK_LINE, 0, |section|);
  }

  // ------------------------------------------------------------ the request line

  lemma {:induction false} WordOf(w: string, rest: string)
    requires forall i :: 0 <= i < |w| ==> !IsSpace(w[i])
    requires rest == "" || IsSpace(rest[0])
    ensures Word(w + rest) == w
  {
    if w == "" {
      assert w + rest == rest;
    } else {
      WordOf(w[1..], rest);
      assert (w + rest)[1..] == w[1..] + rest;
    }
  }

  lemma NextWordOf(w: string, rest: string)
    requires IsWord(w) && (rest == "" || IsSpace(rest[0]))
    ensures NextWord(w + rest) == Some((w, rest)) && NextWord(" " + (w + rest)) == Some((w, rest))
  {
    WordOf(w, rest);
    assert (" " + (w + rest))[1..] == w + rest;
    assert SkipSpaces(w + rest) == w + rest;
    assert (w + rest)[|w|..] == rest;
  }

  lemma RequestLineBack(m: Message)
    requires Proper(m)
    ensures ParseRequestLine(StartLine(m)) == RequestLine(m.verb, m.path, m.version)
  {
    var afterPath := " " + (m.version + "");
    var afterVerb := " " + (m.path + afterPath);
    assert StartLine(m) == m.verb + afterVerb;
    NextWordOf(m.verb, afterVerb);
    NextWordOf(m.path, afterPath);
    NextWordOf(m.version, "");
  }

  // ------------------------------------------------------------ the header fields

  lemma StripLeftNone(s: string)
    requires s != "" ==> s[0] != ' ' && s[0] != '\t'
    ensures StripLeft(" " + s) == s
  {
    assert (" " + s)[1..] == s;
  }

  lemma FieldBack(h: Headers, f: Field)
    requires ProperField(f)
    ensures AddHeader(h, Line(f)) == h[f.name := f.value]
  {
    var line, n := Line(f), |f.name|;
    assert line[n] == ':' && line[..n] == f.name;
    assert line[n + 1..] == " " + f.value;
    StripLeftNone(f.value);
    assert IndexOf(line, ':', 0) == Some(n) by {
      var r := IndexOf(line, ':', 0);
      assert forall i :: 0 <= i < n ==> line[i] == f.name[i];
    }
  }

  lemma NoLineEnd(text: string, pos: nat, line: string, rest: string, i: nat)
    requires pos <= |text| && text[pos..] == line + rest && NoReturn(line) && pos <= i < pos + |line|
    ensures !Occurs(text, CRLF, i)
  {
    assert text[i] == text[pos..][i - pos] == line[i - pos];
    OccursChar(text, CRLF, i, 0);
  }

  /** The parts of a text from some position on: a line, its end, and the rest. */
  lemma LineParts(text: string, pos: nat, line: string, rest: string)
    requires pos <= |text| && text[pos..] == line + (CRLF + rest)
    ensures pos + |line| + 2 <= |text| && text[pos..pos + |line|] == line
    ensures Occurs(text, CRLF, pos + |line|) && text[pos + |line| + 2..] == rest
  {
    var t, n := text[pos..], |line|;
    assert |t| == n + 2 + |rest|;
    assert text[pos..pos + n] == t[..n];
    assert text[pos + n..pos + n + 2] == t[n..n + 2];
    assert text[pos + n + 2..] == t[n + 2..];
  }

  lemma LineEndAt(text: string, pos: nat, line: string, rest: string)
    requires pos <= |text| && text[pos..] == line + (CRLF + rest) && NoReturn(line)
    ensures Find(text, CRLF, pos) == Some(pos + |line|)
  {
    LineParts(text, pos, line, rest);
    forall i | pos <= i < pos + |line|
      ensures !Occurs(text, CRLF, i)
    {
      NoLineEnd(text, pos, line, CRLF + rest, i);
    }
    FoundAt(text, CRLF, pos, pos + |line|);
  }

  lemma NoMoreLineEnds(text: string, pos: nat, line: string)
    requires pos <= |text| && text[pos..] == line && NoReturn(line)
    ensures Find(text, CRLF, pos) == None
  {
    assert line == line + "";
    forall i | pos <= i < pos + |line|
      ensures !Occurs(text, CRLF, i)
    {
      NoLineEnd(text, pos, line, "", i);
    }
  }

  /** From `pos` on the text is the lines from the k-th on, without a line end before. */
  predicate LinesFrom(text: string, pos: nat, lines: seq<string>, k: nat)
    requires k < |lines|
  {
    pos <= |text| && text[pos..] == lines[k] + Lines(lines, k + 1)
  }

  /** Where the k-th line starts when the first one starts at `base`. */
  function Start(base: nat, lines: seq<string>, k: nat): nat
    requires k <= |lines|
  {
    if k == 0 then base else Start(base, lines, k - 1) + |lines[k - 1]| + 2
  }

  lemma {:induction false} LinesAt(text: string, base: nat, lines: seq<string>, k: nat)
    requires k < |lines| && LinesFrom(text, base, lines, 0)
    ensures LinesFrom(text, Start(base, lines, k), lines, k)
  {
    if k > 0 {
      LinesAt(text, base, lines, k - 1);
      var rest := lines[k] + Lines(lines, k + 1);
      assert Lines(lines, k) == CRLF + rest;
      LineParts(text, Start(base, lines, k - 1), lines[k - 1], rest);
    }
  }

  /** The k-th line is at `pos`; the search from there finds its end, or nothing after the last line. */
  predicate Located(find: nat -> Option<nat>, text: string, lines: seq<string>, k: nat, pos: nat)
    requires k < |lines|
  {
    var end := pos + |lines[k]|;
    && pos < end <= |text| && text[pos..end] == lines[k]
    && find(pos) == if k == |lines| - 1 then None else Some(end)
  }

  lemma LastLocated(text: string, pos: nat, lines: seq<string>)
    requires lines != [] && Solid(lines) && LinesFrom(text, pos, lines, |lines| - 1)
    ensures Located(LineEnds(text), text, lines, |lines| - 1, pos)
  {
    var line := lines[|lines| - 1];
    assert line + "" == line;
    NoMoreLineEnds(text, pos, line);
  }

  lemma InnerLocated(text: string, pos: nat, lines: seq<string>, k: nat)
    requires k + 1 < |lines| && Solid(lines) && LinesFrom(text, pos, lines, k)
    ensures Located(LineEnds(text), text, lines, k, pos)
  {
    var rest := lines[k + 1] + Lines(lines, k + 2);
    assert Lines(lines, k + 1) == CRLF + rest;
    LineParts(text, pos, lines[k], rest);
    LineEndAt(text, pos, lines[k], rest);
  }

  lemma LineLocated(text: string, base: nat, lines: seq<string>, k: nat)
    requires k < |lines| && Solid(lines) && LinesFrom(text, base, lines, 0)
    ensures Located(LineEnds(text), text, lines, k, Start(base, lines, k))
  {
    LinesAt(text, base, lines, k);
    if k == |lines| - 1 {
      LastLocated(text, Start(base, lines, k), lines);
    } else {
      InnerLocated(text, Start(base, lines, k), lines, k);
    }
  }

  predicate AllLocated(find: nat -> Option<nat>, text: string, base: nat, lines: seq<string>) {
    forall k :: 0 <= k < |lines| ==> Located(find, text, lines, k, Start(base, lines, k))
  }

  lemma LinesLocated(text: string, base: nat, lines: seq<string>)
    requires lines != [] && Solid(lines) && LinesFrom(text, base, lines, 0)
    ensures AllLocated(LineEnds(text), text, base, lines)
  {
    forall k | 0 <= k < |lines|
      ensures Located(LineEnds(text), text, lines, k, Start(base, lines, k))
    {
      LineLocated(text, base, lines, k);
    }
  }

  /** The lines from the k-th up to, and without, the last. */
  function ButLast(lines: seq<string>, k: nat): seq<string>
    decreases |lines| - k
  {
    if k + 1 >= |lines| then [] else [lines[k]] + ButLast(lines, k + 1)
  }

  lemma NextLine(find: nat -> Option<nat>, text: string, lines: seq<string>, k: nat, pos: nat)
    requires k < |lines| && Located(find, text, lines, k, pos)
    ensures LinesBy(find, text, pos)
            == if k == |lines| - 1 then [] else [lines[k]] + LinesBy(find, text, pos + |lines[k]| + 2)
  {}

  /** All lines but the last are found. */
  lemma {:induction false} LinesFound(find: nat -> Option<nat>, text: string, base: nat, lines: seq<string>, k: nat)
    requires k < |lines| && AllLocated(find, text, base, lines)
    ensures LinesBy(find, text, Start(base, lines, k)) == ButLast(lines, k)
    decreases |lines| - k
  {
    NextLine(find, text, lines, k, Start(base, lines, k));
    if k < |lines| - 1 {
      LinesFound(find, text, base, lines, k + 1);
    }
  }

  lemma EnteredFirst(h: Headers, line: string, rest: seq<string>, h': Headers)
    requires AddHeader(h, line) == h'
    ensures Entered(h, [line] + rest) == Entered(h', rest)
  {
    assert ([line] + rest)[1..] == rest;
  }

  lemma {:induction false} FieldsEntered(fields: seq<Field>, k: nat)
    requires k < |fields| && AllProper(fields)
    ensures Entered(Recorded(fields, k), ButLast(LinesOf(fields), k)) == Recorded(fields, |fields| - 1)
    decreases |fields| - k
  {
    if k < |fields| - 1 {
      EnteredFirst(Recorded(fields, k), Line(fields[k]), ButLast(LinesOf(fields), k + 1), Recorded(fields, k + 1)) by {
        FieldBack(Recorded(fields, k), fields[k]);
      }
      FieldsEntered(fields, k + 1);
    }
  }

  /** All fields but the last are entered. */
  lemma FieldsBack(text: string, base: nat, fields: seq<Field>)
    requires fields != [] && AllProper(fields) && LinesFrom(text, base, LinesOf(fields), 0)
    ensures ParseHeaders(text, base) == Recorded(fields, |fields| - 1)
  {
    assert HeaderLines(text, base) == ButLast(LinesOf(fields), 0) by {
      FieldLinesSolid(fields);
      LinesLocated(text, base, LinesOf(fields));
      LinesFound(LineEnds(text), text, base, LinesOf(fields), 0);
    }
    FieldsEntered(fields, 0);
  }

  // ------------------------------------------------------------ whole requests

  /** The fields that are entered. */
  function Kept(m: Message): Headers {
    if m.fields == [] then map[] else Recorded(m.fields, |m.fields| - 1)
  }

  /** The length of the body as the entered fields announce it. */
  function Announced(m: Message): Option<nat> {
    var value := Header(Kept(m), "Content-Length");
    if value == "" then Some(0) else Stoul(value)
  }

  /** The request that a message becomes when these are its fields and this its body. */
  function RequestWith(m: Message, headers: Headers, body: string): Request {
    WithBody(BuildRequest(m.verb, m.path, m.version, headers, Section(m)), body)
  }

  function Received(m: Message): Request {
    RequestWith(m, Kept(m), m.body)
  }

  /** The request as it was sent, with all its fields. */
  function AsSent(m: Message): Request {
    RequestWith(m, Recorded(m.fields, |m.fields|), m.body)
  }

  lemma HeadStep(maxBody: nat, text: string, lineEnd: nat, m: Message)
    requires Find(text, CRLF, 0) == Some(lineEnd)
    requires ParseRequestLine(text[..lineEnd]) == RequestLine(m.verb, m.path, m.version)
    requires ParseHeaders(text, lineEnd + 2) == Kept(m)
    ensures ParseHead(maxBody, text)
            == if Announced(m).None? then BadLength
               else if Announced(m).value > maxBody then TooLarge
               else Head(BuildRequest(m.verb, m.path, m.version, Kept(m), text), Announced(m).value)
  {}

  lemma SectionWithFields(m: Message)
    requires Proper(m) && m.fields != []
    ensures Find(Section(m), CRLF, 0) == Some(|StartLine(m)|)
    ensures Section(m)[..|StartLine(m)|] == StartLine(m)
    ensures LinesFrom(Section(m), |StartLine(m)| + 2, LinesOf(m.fields), 0)
  {
    var text, start := Section(m), StartLine(m);
    var lines := LinesOf(m.fields);
    var rest := lines[0] + Lines(lines, 1);
    assert text[0..] == text && Lines(lines, 0) == CRLF + rest;
    StartLineProper(m);
    LineParts(text, 0, start, rest);
    LineEndAt(text, 0, start, rest);
  }

  /** What the header section of a message is read as. */
  function HeadOf(maxBody: nat, m: Message): Head {
    if m.fields == [] then Malformed
    else if Announced(m).None? then BadLength
    else if Announced(m).value > maxBody then TooLarge
    else Head(BuildRequest(m.verb, m.path, m.version, Kept(m), Section(m)), Announced(m).value)
  }

  lemma SectionParsed(maxBody: nat, m: Message)
    requires Proper(m)
    ensures ParseHead(maxBody, Section(m)) == HeadOf(maxBody, m)
  {
    if m.fields == [] {
      StartLineProper(m);
      assert Section(m)[0..] == StartLine(m);
      NoMoreLineEnds(Section(m), 0, StartLine(m));
    } else {
      HeadStep(maxBody, Section(m), |StartLine(m)|, m) by {
        SectionWithFields(m);
        RequestLineBack(m);
        FieldsBack(Section(m), |StartLine(m)| + 2, m.fields);
      }
    }
  }

  /** The outcome for a header section that ends before `n`, given what follows it. */
  function TookBody(g: Grammar, n: nat, head: Head, tail: string): Parsed {
    if head.BadLength? then Threw
    else if !head.Head? || |tail| < head.contentLength then Refused
    else Parsed(g.attach(head.request, tail[..head.contentLength]), n + head.contentLength)
  }

  lemma BodyTaken(g: Grammar, s: string, n: nat, head: Head, tail: string)
    requires n <= |s| && s[n..] == tail
    ensures TakeBody(g, s, n, head) == TookBody(g, n, head, tail)
  {
    if head.Head? && head.contentLength <= |tail| {
      assert s[n..n + head.contentLength] == tail[..head.contentLength];
    }
  }

  lemma SectionAndTail(section: string, tail: string)
    ensures var s := section + BLANK_LINE + tail;
            s[..|section|] == section && s[|section| + 4..] == tail
  {}

  lemma ParseBy(g: Grammar, s: string, section: string, tail: string, head: Head)
    requires s == section + BLANK_LINE + tail && g.head(section) == head
    requires Find(s, BLANK_LINE, 0) == Some(|section|)
    ensures Parse(g, s) == TookBody(g, |section| + 4, head, tail)
  {
    SectionAndTail(section, tail);
    BodyTaken(g, s, |section| + 4, head, tail);
  }

  /**
   What the parser makes of a message followed by anything, in every case: no fields, a length that
   is none, one that is too large or has not arrived, and any other, right or wrong for the body.
   */
  function ParsedAs(maxBody: nat, m: Message, rest: string): Parsed {
    var tail := m.body + rest;
    if m.fields == [] then Refused
    else if Announced(m).None? then Threw
    else if Announced(m).value > maxBody || Announced(m).value > |tail| then Refused
    else
      var n := Announced(m).value;
      Parsed(RequestWith(m, Kept(m), tail[..n]), |Section(m)| + 4 + n)
  }

  lemma ParsedAsTook(maxBody: nat, m: Message, rest: string)
    ensures ParsedAs(maxBody, m, rest)
            == TookBody(Http(maxBody), |Section(m)| + 4, HeadOf(maxBody, m), m.body + rest)
  {}

  lemma ParseWrittenBy(g: Grammar, m: Message, rest: string, head: Head)
    requires Proper(m) && g.head(Section(m)) == head
    ensures Parse(g, Written(m) + rest) == TookBody(g, |Section(m)| + 4, head, m.body + rest)
  {
    ParseBy(g, Written(m) + rest, Section(m), m.body + rest, head) by {
      SectionEnds(m, rest);
    }
  }

  lemma ParseWritten(maxBody: nat, m: Message, rest: string)
    requires Proper(m)
    ensures Parse(Http(maxBody), Written(m) + rest) == ParsedAs(maxBody, m, rest)
  {
    ParseWrittenBy(Http(maxBody), m, rest, HeadOf(maxBody, m)) by {
      SectionParsed(maxBody, m);
    }
    ParsedAsTook(maxBody, m, rest);
  }

  /** An earlier field says the same as the last. */
  predicate LastRepeated(m: Message)
    requires m.fields != []
  {
    var last := m.fields[|m.fields| - 1];
    last.name in Kept(m) && Kept(m)[last.name] == last.value
  }

  lemma KeptIsAllIff(m: Message)
    requires m.fields != []
    ensures Kept(m) == Recorded(m.fields, |m.fields|) <==> LastRepeated(m)
  {
    var last := m.fields[|m.fields| - 1];
    var all := Kept(m)[last.name := last.value];
    assert all[last.name] == last.value;
    if LastRepeated(m) {
      assert all == Kept(m);
    }
  }

  lemma HeadersOf(m: Message, headers: Headers, body: string)
    ensures RequestWith(m, headers, body).headers == headers
  {}

  /**
   A request comes back as it was sent, using exactly its own characters, if and only if it has
   fields, an earlier one repeats the last, and those that are entered announce the length of its
   body, which is within the limit.
   */
  lemma ComesBackIff(maxBody: nat, m: Message, rest: string)
    requires Proper(m)
    ensures Parse(Http(maxBody), Written(m) + rest) == Parsed(AsSent(m), |Written(m)|)
            <==> && m.fields != [] && LastRepeated(m)
                 && Announced(m) == Some(|m.body|) && |m.body| <= maxBody
  {
    ParseWritten(maxBody, m, rest);
    if m.fields != [] && Announced(m) == Some(|m.body|) && |m.body| <= maxBody {
      assert (m.body + rest)[..|m.body|] == m.body;
      KeptIsAllIff(m);
      HeadersOf(m, Kept(m), m.body);
      HeadersOf(m, Recorded(m.fields, |m.fields|), m.body);
    }
  }

  /**
   When only the last field gives the length, the request is taken without its body, and the body is
   left at the front of the buffer to be read as the next request.
   */
  lemma LengthLost(maxBody: nat, m: Message, rest: string)
    requires Proper(m) && m.fields != [] && Header(Kept(m), "Content-Length") == ""
    ensures Parse(Http(maxBody), Written(m) + rest) == Parsed(RequestWith(m, Kept(m), ""), |Section(m)| + 4)
    ensures (Written(m) + rest)[|Section(m)| + 4..] == m.body + rest
  {
    ParseWritten(maxBody, m, rest);
    NothingAnnounced(maxBody, m, rest);
    Residue(m, rest);
  }

  lemma Residue(m: Message, rest: string)
    ensures (Written(m) + rest)[|Section(m)| + 4..] == m.body + rest
  {
    SectionAndTail(Section(m), m.body + rest);
    assert Written(m) + rest == Section(m) + BLANK_LINE + (m.body + rest);
  }

  lemma NothingAnnounced(maxBody: nat, m: Message, rest: string)
    requires m.fields != [] && Header(Kept(m), "Content-Length") == ""
    ensures ParsedAs(maxBody, m, rest) == Parsed(RequestWith(m, Kept(m), ""), |Section(m)| + 4)
  {
    assert Announced(m) == Some(0);
    assert (m.body + rest)[..0] == "";
  }

  // ------------------------------------------------------------ pipelines

  function Stream(ms: seq<Message>): string {
    if ms == [] then "" else Written(ms[0]) + Stream(ms[1..])
  }

  function Dispatches(ms: seq<Message>): seq<Event> {
    if ms == [] then [] else [Dispatch(Received(ms[0]))] + Dispatches(ms[1..])
  }

  /** A request that the server takes, and after which it keeps the connection. */
  predicate Accepted(maxBody: nat, m: Message) {
    Proper(m) && m.fields != [] && Announced(m) == Some(|m.body|) && |m.body| <= maxBody && Received(m).keepAlive
  }

  predicate AllAccepted(maxBody: nat, ms: seq<Message>) {
    forall i :: 0 <= i < |ms| ==> Accepted(maxBody, ms[i])
  }

  lemma FirstArrives(maxBody: nat, m: Message, later: string)
    requires Accepted(maxBody, m)
    ensures Progresses(Requests(Http(maxBody)))
    ensures Parse(Http(maxBody), Written(m) + later) == Parsed(Received(m), |Written(m)|)
    ensures Drain(Requests(Http(maxBody)), Written(m) + later)
            == Prepend(Dispatch(Received(m)), Drain(Requests(Http(maxBody)), later))
  {
    ParseWritten(maxBody, m, later);
    assert (m.body + later)[..|m.body|] == m.body;
    DrainByParse(Http(maxBody), Written(m) + later);
    assert (Written(m) + later)[|Written(m)|..] == later;
  }

  /** Pipelined requests are dispatched one after the other and leave nothing behind. */
  lemma {:induction false} PipelineArrives(maxBody: nat, ms: seq<Message>)
    requires AllAccepted(maxBody, ms)
    ensures Progresses(Requests(Http(maxBody)))
    ensures Drain(Requests(Http(maxBody)), Stream(ms)) == Drained(Dispatches(ms), "")
  {
    RequestsIncremental(Http(maxBody));
    if ms == [] {
      DrainByParse(Http(maxBody), "");
    } else {
      FirstArrives(maxBody, ms[0], Stream(ms[1..]));
      PipelineArrives(maxBody, ms[1..]);
    }
  }

  predicate AsksUpgrade(e: Event) { e.Dispatch? && e.request.upgrade }

  /** When a pipeline of requests meets the exception to chunking independence. */
  lemma LateUpgradeIff(maxBody: nat, ms: seq<Message>)
    requires AllAccepted(maxBody, ms) && ms != []
    ensures var events := Dispatches(ms);
            LateUpgrade(Http(maxBody), Stream(ms))
            <==> !AsksUpgrade(events[0]) && exists i :: 1 <= i < |events| && AsksUpgrade(events[i])
  {
    PipelineArrives(maxBody, ms);
    FirstArrives(maxBody, ms[0], Stream(ms[1..]));
    LateUpgradeBy(Http(maxBody), Stream(ms), Dispatches(ms));
  }

  lemma LateUpgradeBy(g: Grammar, b: string, events: seq<Event>)
    requires Progresses(Requests(g)) && Drain(Requests(g), b).events == events != []
    requires Parse(g, b).Parsed? && events[0] == Dispatch(Parse(g, b).request)
    ensures LateUpgrade(g, b) <==> !AsksUpgrade(events[0]) && exists i :: 1 <= i < |events| && AsksUpgrade(events[i])
  {}

  /** Requests that ask for no upgrade are dispatched in order, in whatever chunks they arrive. */
  lemma PipelineInChunks(maxBody: nat, ms: seq<Message>, chunks: seq<string>)
    requires AllAccepted(maxBody, ms) && ms != []
    requires forall i :: 0 <= i < |Dispatches(ms)| ==> !AsksUpgrade(Dispatches(ms)[i])
    requires Concat(chunks) == Stream(ms)
    ensures Observed(Http(maxBody), chunks) == Dispatches(ms)
  {
    var g := Http(maxBody);
    LateUpgradeIff(maxBody, ms);
    ChunkingIndependentIff(maxBody, Stream(ms));
    ObservedWhole(g, Stream(ms));
    FirstArrives(maxBody, ms[0], Stream(ms[1..]));
    HandleIsDrain(g, Stream(ms));
    PipelineArrives(maxBody, ms);
  }

  const PLAIN: Message := Message("GET", "/", "HTTP/1.1", [Field("Host", "h")], "")
  const UPGRADING: Message :=
    Message("GET", "/ws/speedtest", "HTTP/1.1", [Field("Upgrade", "websocket"), Field("Host", "h")], "")

  lemma PlainAccepted()
    ensures Accepted(0, PLAIN) && !Received(PLAIN).upgrade
  {}

  lemma SaysUpgrade()
    ensures Contains(Section(UPGRADING), "Upgrade: websocket")
  {
    var text, start := Section(UPGRADING), StartLine(UPGRADING);
    var rest := Lines(LinesOf(UPGRADING.fields), 1);
    assert Line(UPGRADING.fields[0]) == "Upgrade: websocket";
    assert text == start + CRLF + "Upgrade: websocket" + rest;
    var n := |start| + 2;
    assert text[n..n + |"Upgrade: websocket"|] == "Upgrade: websocket";
    assert Occurs(text, "Upgrade: websocket", n);
  }

  lemma UpgradingWords()
    ensures IsWord("GET") && IsWord("/ws/speedtest") && IsWord("HTTP/1.1")
  {}

  lemma UpgradingFields()
    ensures ProperField(Field("Upgrade", "websocket")) && ProperField(Field("Host", "h"))
  {}

  lemma UpgradingProper()
    ensures Proper(UPGRADING)
  {
    UpgradingWords();
    UpgradingFields();
  }

  lemma UpgradingKept()
    ensures Kept(UPGRADING) == map["Upgrade" := "websocket"]
  {
    assert Recorded(UPGRADING.fields, 1) == map["Upgrade" := "websocket"];
  }

  lemma UpgradeBuilt(verb: string, path: string, version: string, text: string, h: Headers)
    requires Contains(text, "Upgrade: websocket") && Lower(Header(h, "Upgrade")) == "websocket"
    requires StripQuery(path) == "/ws/speedtest" && Header(h, "Connection") == "" && version == "HTTP/1.1"
    ensures var r := BuildRequest(verb, path, version, h, text); r.upgrade && r.keepAlive
  {}

  lemma UpgradeAsked(text: string, h: Headers)
    requires Contains(text, "Upgrade: websocket") && h == map["Upgrade" := "websocket"]
    ensures var r := BuildRequest("GET", "/ws/speedtest", "HTTP/1.1", h, text); r.upgrade && r.keepAlive
  {
    SpelledLower();
    PathWithoutQuery();
    assert "Connection" !in h;
    UpgradeBuilt("GET", "/ws/speedtest", "HTTP/1.1", text, h);
  }

  lemma SpelledLower()
    ensures Lower("websocket") == "websocket"
  {
    LowerAlready("websocket");
  }

  lemma PathWithoutQuery()
    ensures StripQuery("/ws/speedtest") == "/ws/speedtest"
  {
    NoQuery("/ws/speedtest");
  }

  lemma {:induction false} LowerAlready(s: string)
    requires forall i :: 0 <= i < |s| ==> LowerChar(s[i]) == s[i]
    ensures Lower(s) == s
  {
    if s != "" {
      LowerAlready(s[1..]);
    }
  }

  lemma NoQuery(path: string)
    requires forall i :: 0 <= i < |path| ==> path[i] != '?'
    ensures StripQuery(path) == path
  {}

  lemma UpgradingAnnounced()
    ensures Announced(UPGRADING) == Some(0)
  {
    UpgradingKept();
    assert "Content-Length" !in map["Upgrade" := "websocket"];
  }

  lemma UpgradingReceived()
    ensures Received(UPGRADING).upgrade && Received(UPGRADING).keepAlive
  {
    UpgradingKept();
    SaysUpgrade();
    UpgradeAsked(Section(UPGRADING), Kept(UPGRADING));
    KeepsUpgrade(BuildRequest("GET", "/ws/speedtest", "HTTP/1.1", Kept(UPGRADING), Section(UPGRADING)), "");
  }

  lemma UpgradingAccepted()
    ensures Accepted(0, UPGRADING)
  {
    UpgradingProper();
    UpgradingAnnounced();
    UpgradingReceived();
  }

  lemma KeepsUpgrade(r: Request, body: string)
    ensures WithBody(r, body).upgrade == r.upgrade && WithBody(r, body).keepAlive == r.keepAlive
  {}

  lemma DispatchesTwo(a: Message, b: Message)
    ensures Dispatches([a, b]) == [Dispatch(Received(a)), Dispatch(Received(b))]
  {
    assert [a, b][1..] == [b] && [b][1..] == [];
    assert Dispatches([b]) == [Dispatch(Received(b))] + Dispatches([]);
  }

  lemma LateUpgradeOfTwo(maxBody: nat, a: Message, b: Message)
    requires Accepted(maxBody, a) && Accepted(maxBody, b) && !Received(a).upgrade && Received(b).upgrade
    ensures LateUpgrade(Http(maxBody), Stream([a, b]))
  {
    DispatchesTwo(a, b);
    assert !AsksUpgrade(Dispatches([a, b])[0]) && AsksUpgrade(Dispatches([a, b])[1]);
    LateUpgradeIff(maxBody, [a, b]);
  }

  /** The exception is real: an upgrade that is pipelined behind another request. */
  lemma LateUpgradeHappens()
    ensures LateUpgrade(Http(0), Stream([PLAIN, UPGRADING]))
  {
    PlainAccepted();
    UpgradingAccepted();
    UpgradingReceived();
    LateUpgradeOfTwo(0, PLAIN, UPGRADING);
  }

  const POSTING: Message :=
    Message("POST", "/f", "HTTP/1.1", [Field("Host", "h"), Field("Content-Length", "3")], "a=1")

  lemma PostingProper()
    ensures Proper(POSTING)
  {
    assert ProperField(Field("Host", "h"));
    assert ProperField(Field("Content-Length", "3"));
  }

  lemma PostingKept()
    ensures Kept(POSTING) == map["Host" := "h"] && Header(Kept(POSTING), "Content-Length") == ""
  {
    assert Recorded(POSTING.fields, 1) == map["Host" := "h"];
    assert |"Host"| != |"Content-Length"|;
  }

  /** A form posted with its length last: the request is taken empty, and the form opens the next one. */
  lemma PostedFormLost(maxBody: nat, rest: string)
    ensures var buffer := Written(POSTING) + rest;
            var parsed := Parse(Http(maxBody), buffer);
            && parsed.Parsed? && parsed.request.body == "" && parsed.consumed <= |buffer|
            && buffer[parsed.consumed..] == "a=1" + rest
  {
    PostingProper();
    PostingKept();
    LengthLost(maxBody, POSTING, rest);
  }
}
