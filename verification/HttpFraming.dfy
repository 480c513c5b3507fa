/**
 Plain HTTP in `http_protocol_handler.cpp`: requests are cut out of a buffer that
 grows by arbitrary chunks, and dispatched until one asks for the connection to
 be closed or, as the first of a call, for a WebSocket upgrade.
 */
module HttpFraming {
  import opened Wrappers
  import opened Text
  import FormData
  import opened StreamReader

  type Headers = map<string, string>

  datatype Request = Request(
    verb: string, path: string, version: string, headers: Headers, body: string, form: map<string, string>,
    keepAlive: bool, upgrade: bool)

  const CRLF: string := "\r\n"
  const BLANK_LINE: string := "\r\n\r\n"

  /** `GetHeader`: the empty string where there is none. */
  function Header(headers: Headers, key: string): string {
    if key in headers then headers[key] else ""
  }

  function AddHeader(headers: Headers, line: string): Headers {
    match IndexOf(line, ':', 0)
    case None => headers
    case Some(colon) => headers[line[..colon] := StripLeft(line[colon + 1..])]
  }

  /** Lines from `pos` on, where `find` tells at which position on or after another the next line end is. */
  function LinesBy(find: nat -> Option<nat>, text: string, pos: nat): seq<string>
    decreases |text| - pos
  {
    if pos >= |text| then [] else
    match find(pos)
    case None => []
    case Some(end) => if pos <= end <= |text| then [text[pos..end]] + LinesBy(find, text, end + 2) else []
  }

  function LineEnds(text: string): nat -> Option<nat> {
    pos => Find(text, CRLF, pos)
  }

  /**
   The header lines from `pos` on. The text ends before the CRLF of its last line, so that line is
   not among them.
   */
  function HeaderLines(text: string, pos: nat): seq<string> {
    LinesBy(LineEnds(text), text, pos)
  }

  function Entered(headers: Headers, lines: seq<string>): Headers
    decreases |lines|
  {
    if lines == [] then headers else Entered(AddHeader(headers, lines[0]), lines[1..])
  }

  function ParseHeaders(text: string, pos: nat): Headers {
    Entered(map[], HeaderLines(text, pos))
  }

  /** The part of a request that its header section determines. */
  datatype Head = Malformed | BadLength | TooLarge | Head(request: Request, contentLength: nat)

  function StripQuery(path: string): string {
    match IndexOf(path, '?', 0)
    case None => path
    case Some(q) => path[..q]
  }

  function BuildRequest(verb: string, path: string, version: string, headers: Headers, text: string): Request {
    var connection := Header(headers, "Connection");
    Request(verb, StripQuery(path), version, headers, "", map[],
            connection == "keep-alive" || (connection == "" && version == "HTTP/1.1"),
            (Contains(text, "Upgrade: websocket") || Contains(text, "Upgrade: WebSocket"))
            && Lower(Header(headers, "Upgrade")) == "websocket" && StripQuery(path) == "/ws/speedtest")
  }

  datatype RequestLine = NoLine | RequestLine(verb: string, path: string, version: string)

  function ParseRequestLine(line: string): RequestLine {
    match NextWord(line)
    case None => NoLine
    case Some((verb, rest)) =>
      match NextWord(rest)
      case None => NoLine
      case Some((path, rest')) =>
        match NextWord(rest')
        case None => NoLine
        case Some((version, _)) => RequestLine(verb, path, version)
  }

  /** `text` is everything before the blank line. A request line without headers is refused. */
  function ParseHead(maxBody: nat, text: string): Head {
    match Find(text, CRLF, 0)
    case None => Malformed
    case Some(lineEnd) =>
      match ParseRequestLine(text[..lineEnd])
      case NoLine => Malformed
      case RequestLine(verb, path, version) =>
        var headers := ParseHeaders(text, lineEnd + 2);
        var value := Header(headers, "Content-Length");
        var length := if value == "" then Some(0) else Stoul(value);
        if length.None? then BadLength
        else if length.value > maxBody then TooLarge
        else Head(BuildRequest(verb, path, version, headers, text), length.value)
  }

  function WithBody(r: Request, body: string): Request {
    var form := if r.verb == "POST" && Contains(Header(r.headers, "Content-Type"), "application/x-www-form-urlencoded")
                then FormData.ParseForm(body) else map[];
    r.(body := body, form := form)
  }

  /** ParseHttpRequest. `Refused` covers what the code cannot use yet and what it never will. */
  datatype Parsed = Refused | Threw | Parsed(request: Request, consumed: nat)

  /**
   What framing needs to know of a request: how its header section is read and how a body is
   attached. The lemmas on framing hold for any such pair.
   */
  datatype Grammar = Grammar(head: string -> Head, attach: (Request, string) -> Request)

  function Http(maxBody: nat): Grammar {
    Grammar(text => ParseHead(maxBody, text), WithBody)
  }

  function Parse(g: Grammar, buffer: string): Parsed {
    match Find(buffer, BLANK_LINE, 0)
    case None => Refused
    case Some(headerEnd) => TakeBody(g, buffer, headerEnd + 4, g.head(buffer[..headerEnd]))
  }

  function TakeBody(g: Grammar, buffer: string, bodyStart: nat, head: Head): Parsed {
    match head
    case Malformed => Refused
    case TooLarge => Refused
    case BadLength => Threw
    case Head(r, length) =>
      if |buffer| < bodyStart + length then Refused
      else Parsed(g.attach(r, buffer[bodyStart..bodyStart + length]), bodyStart + length)
  }

  // ---------------------------------------------------------------- key lemmas

  /** A request parsed from `b` is the request parsed from `b` followed by anything. */
  lemma ParseStable(g: Grammar, b: string, x: string)
    requires !Parse(g, b).Refused?
    ensures Parse(g, b + x) == Parse(g, b)
  {
    FindStable(b, x, BLANK_LINE, 0);
    var headerEnd := Find(b, BLANK_LINE, 0).value;
    assert (b + x)[..headerEnd] == b[..headerEnd];
    var head := g.head(b[..headerEnd]);
    if head.Head? {
      var start, end := headerEnd + 4, headerEnd + 4 + head.contentLength;
      assert (b + x)[start..end] == b[start..end];
    }
  }

  /** And it depends on nothing but the bytes it consumed. */
  lemma ParseLocal(g: Grammar, b: string)
    requires Parse(g, b).Parsed?
    ensures 4 <= Parse(g, b).consumed <= |b|
    ensures Parse(g, b[..Parse(g, b).consumed]) == Parse(g, b)
  {
    var n := Parse(g, b).consumed;
    var headerEnd := Find(b, BLANK_LINE, 0).value;
    FindLocal(b, BLANK_LINE, 0, n);
    assert b[..n][..headerEnd] == b[..headerEnd];
    assert b[..n][headerEnd + 4..n] == b[headerEnd + 4..n];
  }

  // -------------------------------------------------------------- the data loop

  datatype Event = Dispatch(request: Request) | UpgradeTo(request: Request) | Exception

  /** Events after which the connection or its context is gone, or the call was left by an exception. */
  predicate Ends(e: Event) {
    e.UpgradeTo? || e.Exception? || (e.Dispatch? && !e.request.keepAlive)
  }

  function Read(g: Grammar, b: string): Step<Event> {
    match Parse(g, b)
    case Refused => NeedMore
    case Threw => Took(Exception, 0)
    case Parsed(r, n) => Took(Dispatch(r), n)
  }

  function Requests(g: Grammar): Protocol<char, Event> {
    Protocol(b => Read(g, b), Ends)
  }

  lemma RequestsIncremental(g: Grammar)
    ensures Incremental(Requests(g)) && Local(Requests(g)) && Requests(g).read([]).NeedMore?
  {
    var p := Requests(g);
    forall b
      ensures LocalAt(p, b)
      ensures ProgressAt(p, b)
    {
      if Parse(g, b).Parsed? {
        ParseLocal(g, b);
      }
    }
    forall b, x
      ensures StableAt(p, b, x)
    {
      if !Parse(g, b).Refused? {
        ParseStable(g, b, x);
      }
    }
  }

  predicate UpgradeFirst(g: Grammar, b: string) {
    Parse(g, b).Parsed? && Parse(g, b).request.upgrade
  }

  predicate Closed(events: seq<Event>) {
    events != [] && events[|events| - 1].Dispatch? && !events[|events| - 1].request.keepAlive
  }

  /**
   One call of OnData whose buffer, with the new data, is `b`. Only the request at the front is
   looked at for an upgrade; after an upgrade or a close the context and its buffer are dropped.
   */
  ghost function Handle(g: Grammar, b: string): Drained<char, Event> {
    RequestsIncremental(g);
    if UpgradeFirst(g, b) then Drained([UpgradeTo(Parse(g, b).request)], "")
    else
      Settled(Drain(Requests(g), b))
  }

  /** Closing the connection drops its context, and with it the rest of the buffer. */
  function Settled(d: Drained<char, Event>): Drained<char, Event> {
    if Closed(d.events) then Drained(d.events, "") else d
  }

  ghost function OnChunks(g: Grammar, chunks: seq<string>): Drained<char, Event> {
    if chunks == [] then Drained([], "")
    else
      var before := OnChunks(g, chunks[..|chunks| - 1]);
      var d := Handle(g, before.rest + chunks[|chunks| - 1]);
      Drained(before.events + d.events, d.rest)
  }

  /** What happens up to the end of the conversation. */
  ghost function Observed(g: Grammar, chunks: seq<string>): seq<Event> {
    UpToHalt(Requests(g), OnChunks(g, chunks).events)
  }

  /** Some request other than the first one asks for an upgrade. */
  ghost predicate LateUpgrade(g: Grammar, b: string) {
    RequestsIncremental(g);
    var events := Drain(Requests(g), b).events;
    !UpgradeFirst(g, b) && exists i :: 1 <= i < |events| && events[i].Dispatch? && events[i].request.upgrade
  }

  /** Handling is greedy passes, apart from an upgrade at the front. */
  lemma HandleIsDrain(g: Grammar, b: string)
    requires !UpgradeFirst(g, b)
    ensures Progresses(Requests(g))
    ensures Handle(g, b).events == Drain(Requests(g), b).events
    ensures !Halted(Requests(g), Handle(g, b).events) ==> Handle(g, b) == Drain(Requests(g), b)
  {
    RequestsIncremental(g);
    var d := Drain(Requests(g), b);
    if Closed(d.events) {
      LastHalts(Requests(g), d.events);
    }
  }

  lemma {:induction false} LastHalts<T, E>(p: Protocol<T, E>, events: seq<E>)
    requires events != [] && p.halts(events[|events| - 1])
    ensures Halted(p, events)
  {
    if |events| > 1 {
      LastHalts(p, events[1..]);
    }
  }

  lemma HandleIsCut(g: Grammar, b: string)
    ensures UpToHalt(Requests(g), Handle(g, b).events) == Handle(g, b).events
  {
    RequestsIncremental(g);
    DrainIsCut(Requests(g), b);
  }

  /** One turn of the loop. */
  lemma DrainByParse(g: Grammar, b: string)
    ensures Progresses(Requests(g))
    ensures Parse(g, b).Refused? ==> Drain(Requests(g), b) == Drained([], b)
    ensures Parse(g, b).Threw? ==> Drain(Requests(g), b) == Drained([Exception], b)
    ensures Parse(g, b).Parsed? ==>
              var e, n := Dispatch(Parse(g, b).request), Parse(g, b).consumed;
              0 < n <= |b|
              && Drain(Requests(g), b)
                 == if Ends(e) then Drained([e], b[n..]) else Prepend(e, Drain(Requests(g), b[n..]))
  {
    RequestsIncremental(g);
    assert ProgressAt(Requests(g), b) && Requests(g).read(b) == Read(g, b);
    assert b[0..] == b;
    if Parse(g, b).Parsed? {
      ParseLocal(g, b);
    }
  }

  // -------------------------------------------------------- chunking independence

  /** Once the front request is decided, so is whether it is an upgrade. */
  lemma UpgradeFirstStable(g: Grammar, b: string, x: string)
    requires !Parse(g, b).Refused?
    ensures UpgradeFirst(g, b + x) == UpgradeFirst(g, b)
  {
    ParseStable(g, b, x);
  }

  lemma FirstEvent(g: Grammar, b: string)
    ensures Progresses(Requests(g))
    ensures Drain(Requests(g), b).events == [] <==> Parse(g, b).Refused?
    ensures Drain(Requests(g), b).events == [] ==> Drain(Requests(g), b).rest == b
    ensures UpgradeFirst(g, b) ==> Drain(Requests(g), b).events[0] == Dispatch(Parse(g, b).request)
  {
    RequestsIncremental(g);
    assert Requests(g).read(b) == Read(g, b);
  }

  /** The buffer after a call that ended nothing, extended: a pass that goes on where it was. */
  lemma HandleAppend(g: Grammar, b: string, x: string)
    requires !Halted(Requests(g), Handle(g, b).events) && !LateUpgrade(g, b + x)
    ensures var h := Handle(g, b);
            Handle(g, b + x).events == h.events + Handle(g, h.rest + x).events
            && (!Halted(Requests(g), Handle(g, b + x).events) ==> Handle(g, b + x).rest == Handle(g, h.rest + x).rest)
  {
    RequestsIncremental(g);
    var p := Requests(g);
    FirstEvent(g, b);
    HandleIsDrain(g, b);
    var d := Drain(p, b);
    if d.events != [] {
      DrainAppend(p, b, x);
      UpgradeFirstStable(g, b, x);
      HandleIsDrain(g, b + x);
      FirstEvent(g, d.rest + x);
      var more := Drain(p, d.rest + x);
      assert Drain(p, b + x).events[|d.events|..] == more.events;
      assert more.events != [] ==> Drain(p, b + x).events[|d.events|] == more.events[0];
      HandleIsDrain(g, d.rest + x);
      HaltedAppend(p, d.events, more.events);
    }
  }

  /** A call that ended the conversation does so whatever data follows. */
  lemma HandleHalted(g: Grammar, b: string, x: string)
    requires Halted(Requests(g), Handle(g, b).events)
    ensures Handle(g, b + x).events == Handle(g, b).events
  {
    RequestsIncremental(g);
    FirstEvent(g, b);
    UpgradeFirstStable(g, b, x);
    ParseStable(g, b, x);
    if !UpgradeFirst(g, b) {
      HandleIsDrain(g, b);
      HandleIsDrain(g, b + x);
      DrainAppend(Requests(g), b, x);
    }
  }

  /** An upgrade that is late in a stream is late in every longer one. */
  lemma LateUpgradeStays(g: Grammar, b: string, x: string)
    requires LateUpgrade(g, b)
    ensures LateUpgrade(g, b + x)
  {
    RequestsIncremental(g);
    var p := Requests(g);
    var events := Drain(p, b).events;
    var i :| 1 <= i < |events| && events[i].Dispatch? && events[i].request.upgrade;
    FirstEvent(g, b);
    UpgradeFirstStable(g, b, x);
    DrainAppend(p, b, x);
    assert Drain(p, b + x).events[i] == events[i];
  }

  /** Without a late upgrade, any chunking is handled like the whole stream in one call. */
  lemma {:induction false} ChunksAsOne(g: Grammar, chunks: seq<string>)
    requires !LateUpgrade(g, Concat(chunks))
    ensures Observed(g, chunks) == Handle(g, Concat(chunks)).events
    ensures Halted(Requests(g), OnChunks(g, chunks).events) <==> Halted(Requests(g), Handle(g, Concat(chunks)).events)
    ensures !Halted(Requests(g), OnChunks(g, chunks).events) ==> OnChunks(g, chunks) == Handle(g, Concat(chunks))
  {
    RequestsIncremental(g);
    var p := Requests(g);
    if chunks == [] {
      assert p.read([]) == Read(g, []);
    } else {
      var init, last := chunks[..|chunks| - 1], chunks[|chunks| - 1];
      var b, before := Concat(init), OnChunks(g, init);
      if LateUpgrade(g, b) {
        LateUpgradeStays(g, b, last);
      }
      ChunksAsOne(g, init);
      var h := Handle(g, before.rest + last);
      UpToHaltAppend(p, before.events, h.events);
      HaltedAppend(p, before.events, h.events);
      HandleIsCut(g, before.rest + last);
      if Halted(p, before.events) {
        HandleHalted(g, b, last);
      } else {
        HandleAppend(g, b, last);
      }
    }
  }

  lemma OneChunk(g: Grammar, s: string)
    ensures Concat([s]) == s && OnChunks(g, [s]) == Handle(g, s)
  {
    assert [s][..0] == [];
    assert "" + s == s;
    assert [] + Handle(g, s).events == Handle(g, s).events;
    assert OnChunks(g, [s][..0]) == Drained([], "");
  }

  lemma ObservedWhole(g: Grammar, s: string)
    ensures Concat([s]) == s && Observed(g, [s]) == Handle(g, s).events
  {
    OneChunk(g, s);
    HandleIsCut(g, s);
  }

  lemma TwoChunks(g: Grammar, a: string, b: string)
    ensures Concat([a, b]) == a + b
    ensures OnChunks(g, [a, b]).events == Handle(g, a).events + Handle(g, Handle(g, a).rest + b).events
  {
    OneChunk(g, a);
    assert [a, b][..1] == [a];
  }

  /** A part that is used up by requests that keep the connection, none of them an upgrade at the front. */
  lemma HandleUsedUp(g: Grammar, a: string, b: string, events: seq<Event>)
    requires Progresses(Requests(g)) && Drain(Requests(g), a) == Drained(events, "")
    requires events != [] && !Halted(Requests(g), events) && !UpgradeFirst(g, a + b)
    ensures Handle(g, a) == Drained(events, "")
  {
    FirstEvent(g, a);
    UpgradeFirstStable(g, a, b);
    HandleIsDrain(g, a);
  }

  /** Cut right before the upgrade, the second chunk starts with it. */
  lemma CutAtUpgrade(g: Grammar, s: string, i: nat, n: nat)
    requires Progresses(Requests(g)) && IsCut(Requests(g), s, i, n) && !UpgradeFirst(g, s)
    requires var events := Drain(Requests(g), s).events;
             1 <= i < |events| && events[i].Dispatch? && events[i].request.upgrade
    ensures var events := Drain(Requests(g), s).events;
            Concat([s[..n], s[n..]]) == s
            && OnChunks(g, [s[..n], s[n..]]).events == events[..i] + [UpgradeTo(events[i].request)]
  {
    var events, a, b := Drain(Requests(g), s).events, s[..n], s[n..];
    assert a + b == s && "" + b == b;
    HandleUsedUp(g, a, b, events[..i]);
    TwoChunks(g, a, b);
    UpgradeAtCut(g, b, events[i].request);
  }

  lemma SeenUpTo(g: Grammar, xs: seq<Event>, r: Request)
    requires !Halted(Requests(g), xs)
    ensures UpToHalt(Requests(g), xs + [UpgradeTo(r)]) == xs + [UpgradeTo(r)]
  {
    UpToHaltAppend(Requests(g), xs, [UpgradeTo(r)]);
  }

  /** A stream with a late upgrade, cut right before it, is not handled like the whole stream. */
  lemma LateUpgradeTells(g: Grammar, s: string) returns (chunks: seq<string>)
    requires LateUpgrade(g, s)
    ensures Concat(chunks) == s && Observed(g, chunks) != Observed(g, [s])
  {
    RequestsIncremental(g);
    HandleIsDrain(g, s);
    var events := Handle(g, s).events;
    var i :| 1 <= i < |events| && events[i].Dispatch? && events[i].request.upgrade;
    var n := CutBefore(Requests(g), s, i);
    CutAtUpgrade(g, s, i, n);
    chunks := [s[..n], s[n..]];
    ObservedWhole(g, s);
    SeenUpTo(g, events[..i], events[i].request);
    assert Observed(g, chunks)[i] != events[i];
  }

  lemma UpgradeAtCut(g: Grammar, b: string, r: Request)
    requires Progresses(Requests(g)) && |Drain(Requests(g), b).events| > 0
    requires Drain(Requests(g), b).events[0] == Dispatch(r) && r.upgrade
    ensures Handle(g, b).events == [UpgradeTo(r)]
    ensures UpToHalt(Requests(g), Handle(g, b).events) == [UpgradeTo(r)]
  {
    assert Requests(g).read(b) == Read(g, b);
  }

  /**
   Pipelining, exactly: a stream is handled the same however it is cut into chunks, up to the first
   event that ends the conversation, if and only if no request but the first asks for an upgrade.
   */
  lemma ChunkingIndependentIff(maxBody: nat, s: string)
    ensures (forall chunks :: Concat(chunks) == s ==> Observed(Http(maxBody), chunks) == Observed(Http(maxBody), [s]))
            <==> !LateUpgrade(Http(maxBody), s)
  {
    var g := Http(maxBody);
    ObservedWhole(g, s);
    if LateUpgrade(g, s) {
      var chunks := LateUpgradeTells(g, s);
    } else {
      forall chunks | Concat(chunks) == s
        ensures Observed(g, chunks) == Observed(g, [s])
      {
        ChunksAsOne(g, chunks);
      }
    }
  }

  // -------------------------------------------------------------- implementation

  /** The loop over the header lines. */
  method ReadHeaders(text: string, start: nat) returns (headers: Headers)
    ensures headers == ParseHeaders(text, start)
  {
    headers := map[];
    var pos := start;
    while pos < |text|
      invariant Entered(headers, HeaderLines(text, pos)) == ParseHeaders(text, start)
      decreases |text| - pos
    {
      var end := Find(text, CRLF, pos);
      if end.None? { break; }
      headers := AddHeader(headers, text[pos..end.value]);
      pos := end.value + 2;
    }
  }

  /** ParseHttpRequest, with its loop. */
  method ParseHttpRequest(maxBody: nat, buffer: string) returns (r: Parsed)
    ensures r == Parse(Http(maxBody), buffer)
  {
    var headerEnd := Find(buffer, BLANK_LINE, 0);
    if headerEnd.None? { return Refused; }
    var head := ReadHead(maxBody, buffer[..headerEnd.value]);
    r := ReadBody(Http(maxBody), buffer, headerEnd.value + 4, head);
  }

  method ReadBody(ghost g: Grammar, buffer: string, bodyStart: nat, head: Head) returns (r: Parsed)
    requires forall q, body :: g.attach(q, body) == WithBody(q, body)
    ensures r == TakeBody(g, buffer, bodyStart, head)
  {
    match head
    case Malformed => return Refused;
    case TooLarge => return Refused;
    case BadLength => return Threw;
    case Head(request, length) =>
      if |buffer| < bodyStart + length { return Refused; }
      var attached := AttachBody(request, buffer[bodyStart..bodyStart + length]);
      r := Parsed(attached, bodyStart + length);
  }

  method AttachBody(r: Request, body: string) returns (q: Request)
    ensures q == WithBody(r, body)
  {
    var form := map[];
    if r.verb == "POST" && Contains(Header(r.headers, "Content-Type"), "application/x-www-form-urlencoded") {
      form := FormData.ParseFormData(body);
    }
    q := r.(body := body, form := form);
  }

  method ReadHead(maxBody: nat, text: string) returns (head: Head)
    ensures head == ParseHead(maxBody, text)
  {
    var lineEnd := Find(text, CRLF, 0);
    if lineEnd.None? { return Malformed; }
    var line := ParseRequestLine(text[..lineEnd.value]);
    if line.NoLine? { return Malformed; }
    var headers := ReadHeaders(text, lineEnd.value + 2);
    var value := Header(headers, "Content-Length");
    var length := if value == "" then Some(0) else Stoul(value);
    if length.None? { return BadLength; }
    if length.value > maxBody { return TooLarge; }
    return Head(BuildRequest(line.verb, line.path, line.version, headers, text), length.value);
  }

  /** One connection's context: its buffer, and what was done with what arrived. */
  class Connection {
    const maxBody: nat
    ghost const g: Grammar
    var buffer: string
    var log: seq<Event>

    ghost predicate Valid() { Reads(g, maxBody) }

    constructor (maxBody: nat)
      ensures Valid() && g == Http(maxBody) && buffer == "" && log == []
    {
      this.maxBody := maxBody;
      g := Http(maxBody);
      buffer, log := "", [];
    }

    method OnData(data: string)
      requires Valid()
      modifies this
      ensures var h := Handle(g, old(buffer) + data);
              buffer == h.rest && log == old(log) + h.events
    {
      buffer := buffer + data;
      var front := ParseWith(g, maxBody, buffer);
      if front.Parsed? && front.request.upgrade {
        log := log + [UpgradeTo(front.request)];
        buffer := "";
      } else {
        DispatchAll();
      }
    }

    /** The plain-HTTP loop. */
    method DispatchAll()
      requires Valid()
      modifies this
      ensures Progresses(Requests(g))
      ensures Drained(log, buffer) == After(old(log), Settled(Drain(Requests(g), old(buffer))))
    {
      RequestsIncremental(g);
      ghost var goal := After(log, Settled(Drain(Requests(g), buffer)));
      var go := true;
      while go
        invariant go ==> After(log, Settled(Drain(Requests(g), buffer))) == goal
        invariant !go ==> Drained(log, buffer) == goal
        decreases if go then |buffer| + 1 else 0
      {
        go := DispatchOne();
      }
    }

    /** One turn of the loop: whether it goes on. */
    method DispatchOne() returns (go: bool)
      requires Valid() && Progresses(Requests(g))
      modifies this
      ensures go ==> |buffer| < |old(buffer)|
      ensures After(old(log), Settled(Drain(Requests(g), old(buffer))))
              == if go then After(log, Settled(Drain(Requests(g), buffer))) else Drained(log, buffer)
    {
      DrainByParse(g, buffer);
      assert log + [] == log;
      if buffer == "" { return false; }
      var parsed := ParseWith(g, maxBody, buffer);
      if parsed.Refused? { return false; }
      if parsed.Threw? {
        log := log + [Exception];
        return false;
      }
      var e := Dispatch(parsed.request);
      buffer := buffer[parsed.consumed..];
      if Ends(e) {
        log := log + [e];
        buffer := "";
        return false;
      }
      AfterSettled(log, e, Drain(Requests(g), buffer));
      log := log + [e];
      return true;
    }
  }

  /** The grammar is that of HTTP with this limit, as far as parsing shows. */
  ghost predicate Reads(g: Grammar, maxBody: nat) {
    forall buffer {:trigger ParseAgrees(g, maxBody, buffer)} :: ParseAgrees(g, maxBody, buffer)
  }

  ghost predicate ParseAgrees(g: Grammar, maxBody: nat, buffer: string) {
    Parse(g, buffer) == Parse(Http(maxBody), buffer)
  }

  method ParseWith(ghost g: Grammar, maxBody: nat, buffer: string) returns (r: Parsed)
    requires Reads(g, maxBody)
    ensures r == Parse(g, buffer)
  {
    assert ParseAgrees(g, maxBody, buffer);
    r := ParseHttpRequest(maxBody, buffer);
  }

  lemma AfterSettled(log: seq<Event>, e: Event, d: Drained<char, Event>)
    requires !Ends(e)
    ensures After(log, Settled(Prepend(e, d))) == After(log + [e], Settled(d))
  {
    assert log + ([e] + d.events) == (log + [e]) + d.events;
  }

  /** A whole conversation, chunk by chunk. */
  method Deliver(maxBody: nat, chunks: seq<string>) returns (log: seq<Event>, rest: string)
    ensures var g := Http(maxBody);
            !LateUpgrade(g, Concat(chunks)) ==>
              UpToHalt(Requests(g), log) == Handle(g, Concat(chunks)).events
              && (!Halted(Requests(g), log) ==> rest == Handle(g, Concat(chunks)).rest)
  {
    log, rest := DeliverTo(maxBody, Http(maxBody), chunks);
    if !LateUpgrade(Http(maxBody), Concat(chunks)) {
      ChunksAsOne(Http(maxBody), chunks);
    }
  }

  method DeliverTo(maxBody: nat, ghost g: Grammar, chunks: seq<string>) returns (log: seq<Event>, rest: string)
    requires g == Http(maxBody)
    ensures OnChunks(g, chunks) == Drained(log, rest)
  {
    var c := new Connection(maxBody);
    for i := 0 to |chunks|
      invariant c.g == g && c.Valid() && OnChunks(g, chunks[..i]) == Drained(c.log, c.buffer)
    {
      c.OnData(chunks[i]);
      assert chunks[..i + 1][..i] == chunks[..i];
    }
    assert chunks[..|chunks|] == chunks;
    log, rest := c.log, c.buffer;
  }
}
