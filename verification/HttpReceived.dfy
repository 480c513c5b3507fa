/**
 What a server makes of requests that were written by section 2.1 of RFC 9112, in terms of
 what was written: the length of the body, the path, whether the connection stays, posted
 forms, upgrades, and pipelines that end in a request to close.
 */
module HttpReceived {
  import opened Wrappers
  import opened Text
  import opened HttpFraming
  import opened HttpMessages
  import opened StreamReader
  import FormData

  // ------------------------------------------------------------ what arrives, in plain terms

  /** The length field says how long the body is, in decimal, and the server admits that much. */
  predicate DeclaresBody(maxBody: nat, m: Message) {
    && m.fields != [] && "Content-Length" in Kept(m) && Kept(m)["Content-Length"] == Decimal(|m.body|)
    && |m.body| <= maxBody && |m.body| < ULONG_END
  }

  lemma DeclaredLength(maxBody: nat, m: Message)
    requires DeclaresBody(maxBody, m)
    ensures Announced(m) == Some(|m.body|)
  {
    StoulOfDecimal(|m.body|, "");
    ValueOfDecimal(|m.body|);
    assert Decimal(|m.body|) + "" == Decimal(|m.body|);
  }

  /** A request whose kept length field gives its length in decimal arrives with its body, to the character. */
  lemma DeclaredBodyArrives(maxBody: nat, m: Message, rest: string)
    requires Proper(m) && DeclaresBody(maxBody, m)
    ensures Parse(Http(maxBody), Written(m) + rest) == Parsed(Received(m), |Written(m)|)
    ensures Received(m).body == m.body
  {
    ParseWritten(maxBody, m, rest);
    DeclaredLength(maxBody, m);
    assert (m.body + rest)[..|m.body|] == m.body;
    Attached(m, Kept(m), m.body);
  }

  /** A length field that says more than has arrived keeps the request waiting; one of 2^64 or more throws. */
  lemma OtherLengths(maxBody: nat, m: Message, n: nat, rest: string)
    requires Proper(m) && m.fields != [] && "Content-Length" in Kept(m) && Kept(m)["Content-Length"] == Decimal(n)
    ensures var parsed := Parse(Http(maxBody), Written(m) + rest);
            && (parsed.Threw? <==> n >= ULONG_END)
            && (parsed.Parsed? <==> n < ULONG_END && n <= maxBody && n <= |m.body + rest|)
            && (parsed.Parsed? ==> parsed.request.body == (m.body + rest)[..n])
  {
    ParseWritten(maxBody, m, rest);
    StoulOfDecimal(n, "");
    ValueOfDecimal(n);
    assert Decimal(n) + "" == Decimal(n);
    if n <= |m.body + rest| {
      Attached(m, Kept(m), (m.body + rest)[..n]);
    }
  }

  /** The content type names the form encoding somewhere. */
  ghost predicate SaysForm(headers: Headers) {
    "Content-Type" in headers
    && exists i :: Occurs(headers["Content-Type"], "application/x-www-form-urlencoded", i)
  }

  lemma Attached(m: Message, headers: Headers, body: string)
    ensures var r, built := RequestWith(m, headers, body), BuildRequest(m.verb, m.path, m.version, headers, Section(m));
            && r.verb == m.verb && r.version == m.version && r.headers == headers && r.body == body
            && r.path == built.path && r.keepAlive == built.keepAlive && r.upgrade == built.upgrade
            && (m.verb != "POST" || !SaysForm(headers) ==> r.form == map[])
  {
    EmptyHasNo("application/x-www-form-urlencoded");
  }

  lemma EmptyHasNo(pattern: string)
    requires pattern != ""
    ensures !Contains("", pattern)
  {}

  /** The path without its query: what stands before the first question mark. */
  predicate PathOnly(sent: string, path: string) {
    path <= sent && '?' !in path && (|path| < |sent| ==> sent[|path|] == '?')
  }

  lemma QueryStripped(sent: string)
    ensures PathOnly(sent, StripQuery(sent))
  {}

  /**
   What the server believes of a request that was read from written characters: its parts, the path
   without the query, and whether the connection stays open.
   */
  lemma ParsedParts(maxBody: nat, m: Message, rest: string)
    requires Proper(m) && Parse(Http(maxBody), Written(m) + rest).Parsed?
    ensures var r, kept := Parse(Http(maxBody), Written(m) + rest).request, Kept(m);
            && r.verb == m.verb && r.version == m.version && r.headers == kept && PathOnly(m.path, r.path)
            && (m.verb != "POST" || !SaysForm(kept) ==> r.form == map[])
  {
    ParseWritten(maxBody, m, rest);
    Attached(m, Kept(m), (m.body + rest)[..Announced(m).value]);
    QueryStripped(m.path);
  }

  lemma ParsedKeepsAlive(maxBody: nat, m: Message, rest: string)
    requires Proper(m) && Parse(Http(maxBody), Written(m) + rest).Parsed?
    ensures var stays, kept := Parse(Http(maxBody), Written(m) + rest).request.keepAlive, Kept(m);
            && ("Connection" in kept && kept["Connection"] == "keep-alive" ==> stays)
            && ("Connection" in kept && kept["Connection"] !in {"", "keep-alive"} ==> !stays)
            && ("Connection" !in kept ==> (stays <==> m.version == "HTTP/1.1"))
  {
    ParseWritten(maxBody, m, rest);
    Attached(m, Kept(m), (m.body + rest)[..Announced(m).value]);
  }

  // ------------------------------------------------------------ forms

  lemma FormAttached(r: Request, body: string)
    requires r.verb == "POST" && SaysForm(r.headers)
    ensures WithBody(r, body).form == FormData.ParseForm(body)
  {}

  /**
   A posted form comes out as the map of its fields, a later one replacing an earlier one of the same
   name, whatever bytes are in them and whatever follows the request.
   */
  lemma PostedFormArrives(maxBody: nat, m: Message, fields: seq<FormData.Field>, rest: string)
    requires Proper(m) && DeclaresBody(maxBody, m) && m.verb == "POST" && SaysForm(Kept(m))
    requires FormData.AllBytes(fields) && m.body == FormData.EncodeForm(fields)
    ensures var parsed := Parse(Http(maxBody), Written(m) + rest);
            parsed.Parsed? && parsed.consumed == |Written(m)|
            && parsed.request.form == FormData.LastWins(map[], fields)
  {
    DeclaredBodyArrives(maxBody, m, rest);
    FormAttached(BuildRequest(m.verb, m.path, m.version, Kept(m), Section(m)), m.body);
    FormData.FormRoundTrip(fields);
  }

  // ------------------------------------------------------------ upgrades

  lemma {:induction false} RecordedFrom(fields: seq<Field>, n: nat, name: string) returns (i: nat)
    requires n <= |fields| && name in Recorded(fields, n)
    ensures i < n && fields[i] == Field(name, Recorded(fields, n)[name])
  {
    if fields[n - 1].name == name {
      i := n - 1;
    } else {
      i := RecordedFrom(fields, n - 1, name);
    }
  }

  /** Every field is written somewhere in the header section. */
  lemma FieldOccurs(m: Message, i: nat)
    requires Proper(m) && i < |m.fields|
    ensures Contains(Section(m), Line(m.fields[i]))
  {
    SectionWithFields(m);
    var lines, base := LinesOf(m.fields), |StartLine(m)| + 2;
    LinesAt(Section(m), base, lines, i);
    var at := Start(base, lines, i);
    assert Section(m)[at..][..|lines[i]|] == lines[i];
    assert Section(m)[at..at + |lines[i]|] == Section(m)[at..][..|lines[i]|];
    assert Occurs(Section(m), lines[i], at);
  }

  lemma KeptOccurs(m: Message, name: string)
    requires Proper(m) && name in Kept(m)
    ensures Contains(Section(m), name + ": " + Kept(m)[name])
  {
    var i := RecordedFrom(m.fields, |m.fields| - 1, name);
    FieldOccurs(m, i);
  }

  lemma Spellings()
    ensures Lower("websocket") == "websocket" && Lower("WebSocket") == "websocket"
  {
    var s := "WebSocket";
    LowerAlready("websocket");
    LowerLength(s);
    forall i | 0 <= i < |s|
      ensures Lower(s)[i] == "websocket"[i]
    {
      LowerAt(s, i);
    }
  }

  lemma UpgradeOnly(r: Request, verb: string, path: string, version: string, headers: Headers, text: string)
    requires r == BuildRequest(verb, path, version, headers, text) && r.upgrade
    ensures StripQuery(path) == "/ws/speedtest" && "Upgrade" in headers && Lower(headers["Upgrade"]) == "websocket"
    ensures Contains(text, "Upgrade: websocket") || Contains(text, "Upgrade: WebSocket")
  {
    assert Lower("") == "";
  }

  lemma UpgradeAlso(r: Request, verb: string, path: string, version: string, headers: Headers, text: string)
    requires r == BuildRequest(verb, path, version, headers, text) && StripQuery(path) == "/ws/speedtest"
    requires "Upgrade" in headers && Lower(headers["Upgrade"]) == "websocket"
    requires Contains(text, "Upgrade: websocket") || Contains(text, "Upgrade: WebSocket")
    ensures r.upgrade
  {}

  /** What the header section of a request that was read says about an upgrade. */
  lemma UpgradeOfParsed(maxBody: nat, m: Message, rest: string)
    requires Proper(m) && Parse(Http(maxBody), Written(m) + rest).Parsed?
    ensures Parse(Http(maxBody), Written(m) + rest).request.upgrade
            == BuildRequest(m.verb, m.path, m.version, Kept(m), Section(m)).upgrade
  {
    ParseWritten(maxBody, m, rest);
    Attached(m, Kept(m), (m.body + rest)[..Announced(m).value]);
  }

  /**
   An upgrade is seen only on the one path, and for a field that says websocket in some mixture of
   cases, when one of the two usual spellings of the line stands somewhere in the header section.
   */
  lemma UpgradeSeenOnly(maxBody: nat, m: Message, rest: string)
    requires Proper(m) && Parse(Http(maxBody), Written(m) + rest).Parsed?
    requires Parse(Http(maxBody), Written(m) + rest).request.upgrade
    ensures PathOnly(m.path, "/ws/speedtest")
    ensures "Upgrade" in Kept(m) && Lower(Kept(m)["Upgrade"]) == "websocket"
    ensures Contains(Section(m), "Upgrade: websocket") || Contains(Section(m), "Upgrade: WebSocket")
  {
    UpgradeOfParsed(maxBody, m, rest);
    QueryStripped(m.path);
    var r := BuildRequest(m.verb, m.path, m.version, Kept(m), Section(m));
    UpgradeOnly(r, m.verb, m.path, m.version, Kept(m), Section(m));
  }

  /** There it is seen for the two usual spellings. */
  lemma UpgradeSeen(maxBody: nat, m: Message, rest: string)
    requires Proper(m) && Parse(Http(maxBody), Written(m) + rest).Parsed?
    requires PathOnly(m.path, "/ws/speedtest") && "Upgrade" in Kept(m)
    requires Kept(m)["Upgrade"] == "websocket" || Kept(m)["Upgrade"] == "WebSocket"
    ensures Parse(Http(maxBody), Written(m) + rest).request.upgrade
  {
    UpgradeOfParsed(maxBody, m, rest);
    OnlyPath(m.path, "/ws/speedtest");
    UpgradeWritten(m);
    var r := BuildRequest(m.verb, m.path, m.version, Kept(m), Section(m));
    UpgradeAlso(r, m.verb, m.path, m.version, Kept(m), Section(m));
  }

  lemma UpgradeWritten(m: Message)
    requires Proper(m) && "Upgrade" in Kept(m)
    requires Kept(m)["Upgrade"] == "websocket" || Kept(m)["Upgrade"] == "WebSocket"
    ensures Lower(Kept(m)["Upgrade"]) == "websocket"
    ensures Contains(Section(m), "Upgrade: websocket") || Contains(Section(m), "Upgrade: WebSocket")
  {
    Spellings();
    LineSpellings();
    KeptOccurs(m, "Upgrade");
  }

  lemma LineSpellings()
    ensures "Upgrade" + ": " + "websocket" == "Upgrade: websocket"
    ensures "Upgrade" + ": " + "WebSocket" == "Upgrade: WebSocket"
  {}

  lemma OnlyPath(sent: string, path: string)
    requires PathOnly(sent, path)
    ensures StripQuery(sent) == path
  {
    assert forall i :: 0 <= i < |path| ==> sent[i] == path[i];
  }

  // ------------------------------------------------------------ pipelines that close

  lemma ThenStep<E(!new)>(p: Protocol<char, E>, s: string, t: string, later: string, e: E, events: seq<E>)
    requires Progresses(p) && Drain(p, s) == Prepend(e, Drain(p, t)) && Drain(p, t) == After(events, Drain(p, later))
    ensures Drain(p, s) == After([e] + events, Drain(p, later))
  {
    PrependAfter(e, events, Drain(p, later));
  }

  lemma Associative(a: string, b: string, c: string)
    ensures (a + b) + c == a + (b + c)
  {}

  lemma ThenParts<E(!new)>(p: Protocol<char, E>, a: string, b: string, later: string, e: E, events: seq<E>)
    requires Progresses(p) && Drain(p, a + (b + later)) == Prepend(e, Drain(p, b + later))
    requires Drain(p, b + later) == After(events, Drain(p, later))
    ensures Drain(p, (a + b) + later) == After([e] + events, Drain(p, later))
  {
    Associative(a, b, later);
    ThenStep(p, a + (b + later), b + later, later, e, events);
  }

  lemma StreamStep(ms: seq<Message>)
    requires ms != []
    ensures Stream(ms) == Written(ms[0]) + Stream(ms[1..])
    ensures Dispatches(ms) == [Dispatch(Received(ms[0]))] + Dispatches(ms[1..])
  {}

  lemma {:induction false} PipelineThen(maxBody: nat, ms: seq<Message>, later: string)
    requires AllAccepted(maxBody, ms)
    ensures Progresses(Requests(Http(maxBody)))
    ensures Drain(Requests(Http(maxBody)), Stream(ms) + later)
            == After(Dispatches(ms), Drain(Requests(Http(maxBody)), later))
  {
    var p := Requests(Http(maxBody));
    if ms == [] {
      RequestsIncremental(Http(maxBody));
      assert "" + later == later;
      AfterNothing(Drain(p, later));
    } else {
      var m, more := ms[0], ms[1..];
      FirstArrives(maxBody, m, Stream(more) + later);
      PipelineThen(maxBody, more, later);
      ThenParts(p, Written(m), Stream(more), later, Dispatch(Received(m)), Dispatches(more));
      StreamStep(ms);
    }
  }

  lemma AfterNothing<T, E>(d: Drained<T, E>)
    ensures After([], d) == d
  {
    assert [] + d.events == d.events;
  }

  lemma PrependAfter<T, E>(e: E, events: seq<E>, d: Drained<T, E>)
    ensures Prepend(e, After(events, d)) == After([e] + events, d)
  {
    assert [e] + (events + d.events) == ([e] + events) + d.events;
  }

  /** A request that the server takes, and after which it closes the connection. */
  predicate Closing(maxBody: nat, m: Message) {
    Proper(m) && m.fields != [] && Announced(m) == Some(|m.body|) && |m.body| <= maxBody && !Received(m).keepAlive
  }

  lemma ClosingArrives(maxBody: nat, m: Message, later: string)
    requires Closing(maxBody, m)
    ensures Progresses(Requests(Http(maxBody)))
    ensures Parse(Http(maxBody), Written(m) + later) == Parsed(Received(m), |Written(m)|)
    ensures Drain(Requests(Http(maxBody)), Written(m) + later) == Drained([Dispatch(Received(m))], later)
  {
    ParseWritten(maxBody, m, later);
    assert (m.body + later)[..|m.body|] == m.body;
    DrainByParse(Http(maxBody), Written(m) + later);
    assert (Written(m) + later)[|Written(m)|..] == later;
  }

  /**
   Requests pipelined before one that closes the connection are dispatched in order, then that one;
   whatever follows it is dropped unread.
   */
  lemma ClosingDropsRest(maxBody: nat, ms: seq<Message>, last: Message, later: string)
    requires AllAccepted(maxBody, ms) && Closing(maxBody, last)
    requires !UpgradeFirst(Http(maxBody), Stream(ms) + (Written(last) + later))
    ensures Handle(Http(maxBody), Stream(ms) + (Written(last) + later))
            == Drained(Dispatches(ms) + [Dispatch(Received(last))], "")
  {
    PipelineThen(maxBody, ms, Written(last) + later);
    ClosingArrives(maxBody, last, later);
    SettledLast(Dispatches(ms), Received(last), later);
  }

  lemma SettledLast(events: seq<Event>, r: Request, later: string)
    requires !r.keepAlive
    ensures Settled(Drained(events + [Dispatch(r)], later)) == Drained(events + [Dispatch(r)], "")
  {}

  /** A request at the front that asks for an upgrade hands the connection over, with nothing else done. */
  lemma UpgradeTakesOver(maxBody: nat, m: Message, later: string)
    requires Proper(m) && m.fields != [] && Announced(m) == Some(|m.body|) && |m.body| <= maxBody
    requires Received(m).upgrade
    ensures Handle(Http(maxBody), Written(m) + later) == Drained([UpgradeTo(Received(m))], "")
  {
    ParseWritten(maxBody, m, later);
    assert (m.body + later)[..|m.body|] == m.body;
  }
}
