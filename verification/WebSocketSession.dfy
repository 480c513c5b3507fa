/**
 `WebSocketSession::OnData` and `ProcessFrames`: bytes arrive in arbitrary
 chunks, complete frames are taken off the front of the receive buffer and
 turned into callbacks and replies.
 */
module WebSocketSession {
  import opened Bits
  import opened WebSocketFrame
  import opened StreamReader

  /** What the session does for one frame. `Threw` is the exception of an oversized length. */
  datatype Action =
    | Message(text: seq<Byte>)
    | BinaryMessage(data: seq<Byte>)
    | SendPong
    | PongIgnored
    | PeerClosed(code: nat, reason: seq<Byte>)
    | InvalidOpcode
    | Threw

  function ActionOf(f: Frame): Action {
    if f.opcode == TEXT then Message(f.payload)
    else if f.opcode == BINARY then BinaryMessage(f.payload)
    else if f.opcode == PING then SendPong
    else if f.opcode == PONG then PongIgnored
    else if f.opcode == CLOSE then
      if |f.payload| >= 2 then PeerClosed(FromBytes(f.payload[..2]), f.payload[2..])
      else PeerClosed(1000, [])
    else InvalidOpcode
  }

  /** Actions after which `ProcessFrames` returns without looking at the rest of the buffer. */
  predicate Ends(a: Action) {
    a.PeerClosed? || a.InvalidOpcode? || a.Threw?
  }

  function Read(host: Host, b: seq<Byte>): Step<Action> {
    match Decode(host, b)
    case Incomplete => NeedMore
    case Decoded(f, n) => Took(ActionOf(f), n)
    case Overflow => Took(Threw, 0)
  }

  function Frames(host: Host): Protocol<Byte, Action> {
    Protocol(b => Read(host, b), Ends)
  }

  /** Every decoded frame uses at least two bytes, and no decision is revised by later bytes. */
  lemma FramesIncremental(host: Host)
    ensures Incremental(Frames(host)) && Frames(host).read([]).NeedMore?
  {
    var p := Frames(host);
    forall b
      ensures ProgressAt(p, b)
    {
      if Decode(host, b).Decoded? {
        DecodeProgress(host, b);
      }
    }
    forall b, x
      ensures StableAt(p, b, x)
    {
      if !Decode(host, b).Incomplete? {
        DecodeStable(host, b, x);
      }
    }
  }

  /** `recvBuffer` and the callbacks and replies made so far. */
  class Session {
    const host: Host
    var recvBuffer: seq<Byte>
    var log: seq<Action>

    constructor (host: Host)
      ensures this.host == host && recvBuffer == [] && log == []
    {
      this.host := host;
      recvBuffer, log := [], [];
    }

    method OnData(data: seq<Byte>)
      modifies this
      ensures Progresses(Frames(host))
      ensures var d := Drain(Frames(host), old(recvBuffer) + data);
              recvBuffer == d.rest && log == old(log) + d.events
    {
      FramesIncremental(host);
      recvBuffer := recvBuffer + data;
      ProcessFrames();
    }

    method ProcessFrames()
      modifies this
      ensures Progresses(Frames(host))
      ensures Drained(log, recvBuffer) == After(old(log), Drain(Frames(host), old(recvBuffer)))
    {
      FramesIncremental(host);
      ghost var goal := After(log, Drain(Frames(host), recvBuffer));
      var go := true;
      while go
        invariant go ==> After(log, Drain(Frames(host), recvBuffer)) == goal
        invariant !go ==> Drained(log, recvBuffer) == goal
        decreases if go then |recvBuffer| + 1 else 0
      {
        go := ProcessFrame();
      }
    }

    /** One turn of the loop: whether it goes on. */
    method ProcessFrame() returns (go: bool)
      requires Progresses(Frames(host))
      modifies this
      ensures go ==> |recvBuffer| < |old(recvBuffer)|
      ensures After(old(log), Drain(Frames(host), old(recvBuffer)))
              == if go then After(log, Drain(Frames(host), recvBuffer)) else Drained(log, recvBuffer)
    {
      DrainByDecode(host, recvBuffer);
      assert log + [] == log;
      if recvBuffer == [] { return false; }
      var outcome := DecodeFrame(host, recvBuffer);
      if outcome.Incomplete? { return false; }
      if outcome.Overflow? {
        log := log + [Threw];
        return false;
      }
      var action := ActionOf(outcome.frame);
      recvBuffer := recvBuffer[outcome.consumed..];
      AfterPrepend(log, action, Drain(Frames(host), recvBuffer));
      log := log + [action];
      return !Ends(action);
    }
  }

  /** One turn of the reader, in terms of the decoder. */
  lemma DrainByDecode(host: Host, b: seq<Byte>)
    requires Progresses(Frames(host))
    ensures var p, d := Frames(host), Decode(host, b);
            && (b == [] ==> d.Incomplete?)
            && (d.Incomplete? ==> Drain(p, b) == Drained([], b))
            && (d.Overflow? ==> Drain(p, b) == Drained([Threw], b))
            && (d.Decoded? ==> 0 < d.consumed <= |b|)
            && (d.Decoded? && Ends(ActionOf(d.frame)) ==> Drain(p, b) == Drained([ActionOf(d.frame)], b[d.consumed..]))
            && (d.Decoded? && !Ends(ActionOf(d.frame)) ==>
                  Drain(p, b) == Prepend(ActionOf(d.frame), Drain(p, b[d.consumed..])))
  {
    var p := Frames(host);
    assert p.read(b) == Read(host, b);
    DrainByRead(p, b, Read(host, b));
    if Decode(host, b).Decoded? {
      DecodeProgress(host, b);
    }
    assert b[0..] == b;
  }

  /** A whole conversation: every chunk handed to `OnData` in turn. */
  method Deliver(host: Host, chunks: seq<seq<Byte>>) returns (log: seq<Action>, rest: seq<Byte>)
    ensures Progresses(Frames(host))
    ensures UpToHalt(Frames(host), log) == Drain(Frames(host), Concat(chunks)).events
    ensures !Halted(Frames(host), log) ==> Drain(Frames(host), Concat(chunks)) == Drained(log, rest)
  {
    FramesIncremental(host);
    var s := new Session(host);
    for i := 0 to |chunks|
      invariant s.host == host
      invariant Run(Frames(host), chunks[..i]) == Drained(s.log, s.recvBuffer)
    {
      s.OnData(chunks[i]);
      assert chunks[..i + 1][..i] == chunks[..i];
    }
    assert chunks[..|chunks|] == chunks;
    ChunkingIndependence(Frames(host), chunks);
    log, rest := s.log, s.recvBuffer;
  }

  /** Two ways of cutting the same stream are told apart by nothing before the end of the conversation. */
  lemma SessionChunking(host: Host, one: seq<seq<Byte>>, other: seq<seq<Byte>>)
    requires Concat(one) == Concat(other)
    ensures Progresses(Frames(host))
    ensures var p := Frames(host);
            UpToHalt(p, Run(p, one).events) == UpToHalt(p, Run(p, other).events)
            && (!Halted(p, Run(p, one).events) ==> Run(p, one) == Run(p, other))
  {
    FramesIncremental(host);
    ChunkingIndependence(Frames(host), one);
    ChunkingIndependence(Frames(host), other);
  }

  // ----------------------------------------------------------------- end to end

  ghost predicate Sendable(f: Frame) {
    Representable(f) && f.payloadLen == |f.payload|
  }

  ghost predicate AllSendable(frames: seq<Frame>) {
    forall i :: 0 <= i < |frames| ==> Sendable(frames[i])
  }

  ghost function EncodedAll(host: Host, frames: seq<Frame>): seq<Byte>
    requires AllSendable(frames)
  {
    if frames == [] then [] else Encoded(host, frames[0]) + EncodedAll(host, frames[1..])
  }

  function ActionsOf(frames: seq<Frame>): seq<Action> {
    if frames == [] then [] else [ActionOf(Carried(frames[0]))] + ActionsOf(frames[1..])
  }

  lemma {:induction false} DrainEncoded(host: Host, frames: seq<Frame>)
    requires AllSendable(frames)
    ensures Progresses(Frames(host))
    ensures var d := Drain(Frames(host), EncodedAll(host, frames));
            d.events == UpToHalt(Frames(host), ActionsOf(frames))
            && (!Halted(Frames(host), d.events) ==> d.rest == [])
  {
    FramesIncremental(host);
    var p := Frames(host);
    if frames != [] {
      var f, later := frames[0], EncodedAll(host, frames[1..]);
      var stream := EncodedAll(host, frames);
      DecodeEncoded(host, f, later);
      assert p.read(stream) == Took(ActionOf(Carried(f)), |Encoded(host, f)|);
      assert stream[|Encoded(host, f)|..] == later;
      DrainEncoded(host, frames[1..]);
      assert ([ActionOf(Carried(f))] + ActionsOf(frames[1..]))[1..] == ActionsOf(frames[1..]);
      assert ([ActionOf(Carried(f))] + Drain(p, later).events)[1..] == Drain(p, later).events;
    }
  }

  /**
   Frames encoded by a peer with the same byte order and delivered in any chunks produce exactly
   the peer's sequence of actions, up to the first that ends the conversation.
   */
  lemma FramesArrive(host: Host, frames: seq<Frame>, chunks: seq<seq<Byte>>)
    requires AllSendable(frames)
    requires Concat(chunks) == EncodedAll(host, frames)
    ensures Progresses(Frames(host))
    ensures var p := Frames(host);
            UpToHalt(p, Run(p, chunks).events) == UpToHalt(p, ActionsOf(frames))
            && (!Halted(p, Run(p, chunks).events) ==> Run(p, chunks).rest == [])
  {
    FramesIncremental(host);
    ChunkingIndependence(Frames(host), chunks);
    DrainEncoded(host, frames);
  }

  // ------------------------------------------------------------ frames of the server's own

  /** `EncodeData`: server frames are not masked. */
  function DataFrame(payload: seq<Byte>, opcode: Byte, fin: bool): Frame {
    Frame(fin, opcode, false, |payload|, 0, payload)
  }

  function ClosePayload(code: nat, reason: seq<Byte>): seq<Byte> {
    [code / 256 % 256, code % 256] + reason
  }

  /** Without a mask the byte orders of the two ends do not matter. */
  lemma ServerFrameArrives(sender: Host, receiver: Host, payload: seq<Byte>, opcode: Byte, fin: bool, rest: seq<Byte>)
    requires |payload| <= MAX_VECTOR && opcode < 16
    ensures var f := DataFrame(payload, opcode, fin);
            Decode(receiver, Encoded(sender, f) + rest) == Decoded(f, |Encoded(receiver, f)|)
            && f.fin == fin && f.opcode == opcode && f.payload == payload && !f.mask
  {
    var f := DataFrame(payload, opcode, fin);
    assert Encoded(sender, f) == Encoded(receiver, f);
    RoundTrip(receiver, f, rest);
  }

  /**
   A frame sent by a peer of the same byte order, or by any peer if it is not masked, and how the
   session goes on after it. The lemmas that follow say what it does for each opcode of section 5.2
   of RFC 6455.
   */
  ghost predicate Sent(sender: Host, receiver: Host, f: Frame) {
    Sendable(f) && (f.mask ==> sender == receiver)
  }

  lemma FrameTaken(sender: Host, receiver: Host, f: Frame, rest: seq<Byte>, action: Action)
    requires Sent(sender, receiver, f) && ActionOf(Carried(f)) == action
    ensures Progresses(Frames(receiver))
    ensures Ends(action) ==> Drain(Frames(receiver), Encoded(sender, f) + rest) == Drained([action], rest)
    ensures var p := Frames(receiver);
            !Ends(action) ==> Drain(p, Encoded(sender, f) + rest) == Prepend(action, Drain(p, rest))
  {
    var stream := Encoded(receiver, f) + rest;
    assert Encoded(sender, f) == Encoded(receiver, f);
    FramesIncremental(receiver);
    DecodeEncoded(receiver, f, rest);
    DrainByDecode(receiver, stream);
    assert stream[|Encoded(receiver, f)|..] == rest;
  }

  lemma ActionCarried(f: Frame, op: nat)
    requires f.opcode == op < 16
    ensures Carried(f).opcode == op && Carried(f).payload == f.payload
  {}

  lemma TextArrives(sender: Host, receiver: Host, f: Frame, rest: seq<Byte>)
    requires Sent(sender, receiver, f) && f.opcode == 1
    ensures Progresses(Frames(receiver))
    ensures var p := Frames(receiver);
            Drain(p, Encoded(sender, f) + rest) == Prepend(Message(f.payload), Drain(p, rest))
  {
    ActionCarried(f, 1);
    FrameTaken(sender, receiver, f, rest, Message(f.payload));
  }

  lemma BinaryArrives(sender: Host, receiver: Host, f: Frame, rest: seq<Byte>)
    requires Sent(sender, receiver, f) && f.opcode == 2
    ensures Progresses(Frames(receiver))
    ensures var p := Frames(receiver);
            Drain(p, Encoded(sender, f) + rest) == Prepend(BinaryMessage(f.payload), Drain(p, rest))
  {
    ActionCarried(f, 2);
    FrameTaken(sender, receiver, f, rest, BinaryMessage(f.payload));
  }

  lemma PingArrives(sender: Host, receiver: Host, f: Frame, rest: seq<Byte>)
    requires Sent(sender, receiver, f) && f.opcode == 9
    ensures Progresses(Frames(receiver))
    ensures var p := Frames(receiver);
            Drain(p, Encoded(sender, f) + rest) == Prepend(SendPong, Drain(p, rest))
  {
    ActionCarried(f, 9);
    FrameTaken(sender, receiver, f, rest, SendPong);
  }

  lemma PongArrives(sender: Host, receiver: Host, f: Frame, rest: seq<Byte>)
    requires Sent(sender, receiver, f) && f.opcode == 10
    ensures Progresses(Frames(receiver))
    ensures var p := Frames(receiver);
            Drain(p, Encoded(sender, f) + rest) == Prepend(PongIgnored, Drain(p, rest))
  {
    ActionCarried(f, 10);
    FrameTaken(sender, receiver, f, rest, PongIgnored);
  }

  /** Any other opcode ends the pass: the frames behind it are not looked at. */
  lemma OtherOpcodeArrives(sender: Host, receiver: Host, f: Frame, rest: seq<Byte>)
    requires Sent(sender, receiver, f) && f.opcode < 16 && f.opcode !in {1, 2, 8, 9, 10}
    ensures Progresses(Frames(receiver))
    ensures Drain(Frames(receiver), Encoded(sender, f) + rest) == Drained([InvalidOpcode], rest)
  {
    ActionCarried(f, f.opcode);
    FrameTaken(sender, receiver, f, rest, InvalidOpcode);
  }

  /** A close frame without a status code counts as code 1000. */
  lemma BareCloseArrives(sender: Host, receiver: Host, f: Frame, rest: seq<Byte>)
    requires Sent(sender, receiver, f) && f.opcode == 8 && |f.payload| < 2
    ensures Progresses(Frames(receiver))
    ensures Drain(Frames(receiver), Encoded(sender, f) + rest) == Drained([PeerClosed(1000, [])], rest)
  {
    ActionCarried(f, 8);
    FrameTaken(sender, receiver, f, rest, PeerClosed(1000, []));
  }

  /** Otherwise the code is the first two bytes, the higher one first, and the rest is the reason. */
  lemma CloseFrameArrives(sender: Host, receiver: Host, f: Frame, hi: nat, lo: nat, rest: seq<Byte>)
    requires Sent(sender, receiver, f) && f.opcode == 8
    requires |f.payload| >= 2 && hi == f.payload[0] && lo == f.payload[1]
    ensures Progresses(Frames(receiver))
    ensures Drain(Frames(receiver), Encoded(sender, f) + rest)
            == Drained([PeerClosed(256 * hi + lo, f.payload[2..])], rest)
  {
    ActionCarried(f, 8);
    TwoBytes(f.payload, hi, lo);
    FrameTaken(sender, receiver, f, rest, PeerClosed(256 * hi + lo, f.payload[2..]));
  }

  lemma TwoBytes(s: seq<Byte>, hi: nat, lo: nat)
    requires |s| >= 2 && hi == s[0] && lo == s[1]
    ensures FromBytes(s[..2]) == 256 * hi + lo
  {
    assert s[..2] == [s[0]] + [s[1]] && [] + [s[0]] == [s[0]];
    FromBytesSnoc([], s[0]);
    FromBytesSnoc([s[0]], s[1]);
  }

  /** Part of a frame does nothing and stays in the buffer; a length that overflows ends in the exception. */
  lemma PartialOrOverflowing(host: Host, f: Frame, n: nat)
    requires Sendable(f) && n < |Encoded(host, f)|
    ensures Progresses(Frames(host))
    ensures Drain(Frames(host), Encoded(host, f)[..n]) == Drained([], Encoded(host, f)[..n])
    ensures var b := [0x82, 0x7F] + seq(8, _ => 0xFF); Drain(Frames(host), b) == Drained([Threw], b)
  {
    FramesIncremental(host);
    PrefixIncomplete(host, f, n);
    DrainByDecode(host, Encoded(host, f)[..n]);
    LargestLengthOverflows(host);
    DrainByDecode(host, [0x82, 0x7F] + seq(8, _ => 0xFF));
  }

  /** A close frame tells the other end the code and the reason it was sent with. */
  lemma CloseArrives(sender: Host, receiver: Host, code: nat, reason: seq<Byte>, rest: seq<Byte>)
    requires code < 0x10000 && |reason| + 2 <= MAX_VECTOR
    ensures var stream := Encoded(sender, DataFrame(ClosePayload(code, reason), CLOSE, true)) + rest;
            && Progresses(Frames(receiver))
            && Drain(Frames(receiver), stream) == Drained([PeerClosed(code, reason)], rest)
  {
    var f := DataFrame(ClosePayload(code, reason), CLOSE, true);
    var stream := Encoded(sender, f) + rest;
    FramesIncremental(receiver);
    ServerFrameArrives(sender, receiver, f.payload, CLOSE, true, rest);
    DrainByDecode(receiver, stream);
    assert Encoded(sender, f) == Encoded(receiver, f);
    assert stream[|Encoded(receiver, f)|..] == rest;
    CloseAction(code, reason);
  }

  lemma CloseAction(code: nat, reason: seq<Byte>)
    requires code < 0x10000
    ensures ActionOf(DataFrame(ClosePayload(code, reason), CLOSE, true)) == PeerClosed(code, reason)
  {
    var payload := ClosePayload(code, reason);
    assert payload[..2] == [code / 256 % 256, code % 256] && payload[2..] == reason;
    assert payload[..2][..1] == [code / 256 % 256];
    assert FromBytes([code / 256 % 256]) == code / 256 % 256;
  }
}
