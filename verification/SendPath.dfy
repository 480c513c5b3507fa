/**
 The outgoing byte path: the chunk queue of `connection_buffer_mgr.cpp` and
 `Send` and `Flush` of `tcp_connection.cpp`, over a socket that may take any
 part of what it is offered, or fail.
 */
module SendPath {

  import opened Bits
  import opened Wrappers

  type Chunks = seq<seq<Byte>>

  function Flatten(chunks: Chunks): seq<Byte> {
    if chunks == [] then [] else chunks[0] + Flatten(chunks[1..])
  }

  lemma {:induction false} FlattenSnoc(chunks: Chunks, c: seq<Byte>)
    ensures Flatten(chunks + [c]) == Flatten(chunks) + c
  {
    if chunks == [] {
      assert [c][1..] == [];
    } else {
      assert (chunks + [c])[1..] == chunks[1..] + [c];
      FlattenSnoc(chunks[1..], c);
    }
  }

  /** Chunks with bytes in each. */
  predicate Solid(chunks: Chunks) {
    forall i :: 0 <= i < |chunks| ==> chunks[i] != []
  }

  // ------------------------------------------------------------------- the queue

  /** Only part of the front chunk is consumed. */
  predicate WellFormed(queue: Chunks, consumed: nat) {
    Solid(queue) && if queue == [] then consumed == 0 else consumed < |queue[0]|
  }

  /** What is left to send, chunk by chunk. */
  function Left(queue: Chunks, consumed: nat): Chunks
    requires WellFormed(queue, consumed)
  {
    if queue == [] then [] else [queue[0][consumed..]] + queue[1..]
  }

  /** Bytes taken from the front, chunk by chunk; taking more than there is leaves nothing. */
  function Without(chunks: Chunks, n: nat): Chunks {
    if chunks == [] || n == 0 then chunks
    else if n < |chunks[0]| then [chunks[0][n..]] + chunks[1..]
    else Without(chunks[1..], n - |chunks[0]|)
  }

  lemma {:induction false} WithoutIsDrop(chunks: Chunks, n: nat)
    ensures var all := Flatten(chunks);
            Flatten(Without(chunks, n)) == if n <= |all| then all[n..] else []
  {
    if chunks != [] && n > 0 {
      if n < |chunks[0]| {
        assert ([chunks[0][n..]] + chunks[1..])[1..] == chunks[1..];
      } else {
        WithoutIsDrop(chunks[1..], n - |chunks[0]|);
      }
    }
  }

  class SendBuffer {
    var queue: Chunks
    var consumed: nat
    const limit: nat

    ghost predicate Valid()
      reads this
    {
      WellFormed(queue, consumed)
    }

    ghost function Pending(): Chunks
      reads this
      requires Valid()
    {
      Left(queue, consumed)
    }

    constructor (limit: nat)
      ensures Valid() && Pending() == [] && this.limit == limit
    {
      this.limit := limit;
      queue, consumed := [], 0;
    }

    /** Refuses what would exceed the limit; copying the data can also fail. */
    method EnqueueSend(data: seq<Byte>, cloneFails: bool) returns (ok: bool)
      requires Valid()
      modifies this`queue
      ensures Valid() && ok == Accepts(limit, old(Pending()), data, cloneFails)
      ensures ok <==> data == [] || (|Flatten(old(Pending()))| + |data| <= limit && !cloneFails)
      ensures Pending() == if ok && data != [] then old(Pending()) + [data] else old(Pending())
    {
      if data == [] { return true; }
      var size := GetSendQueueSize();
      if size + |data| > limit || cloneFails { return false; }
      queue := queue + [data];
      return true;
    }

    /** The unconsumed part of the front chunk. */
    method PeekSend() returns (view: seq<Byte>)
      requires Valid()
      ensures view == if Pending() == [] then [] else Pending()[0]
      ensures Pending() != [] ==> view != []
    {
      if queue == [] { return []; }
      if consumed >= |queue[0]| { return []; }
      view := queue[0][consumed..];
    }

    method ConsumeSend(bytes: nat)
      requires Valid()
      modifies this`queue, this`consumed
      ensures Valid() && Pending() == Without(old(Pending()), bytes)
    {
      var left: nat := bytes;
      while left > 0 && queue != []
        invariant Valid() && Without(Pending(), left) == Without(old(Pending()), bytes)
        decreases |queue|
      {
        var remaining := |queue[0]| - consumed;
        assert Pending()[1..] == queue[1..];
        if left < remaining {
          assert queue[0][consumed..][left..] == queue[0][consumed + left..];
          consumed := consumed + left;
          return;
        }
        left := left - remaining;
        assert queue[1..] != [] ==> Left(queue[1..], 0) == queue[1..];
        queue, consumed := queue[1..], 0;
      }
    }

    /** The sum over the chunks, less what is consumed of the first. */
    method GetSendQueueSize() returns (total: nat)
      requires Valid()
      ensures total == |Flatten(Pending())|
    {
      total := 0;
      if queue != [] {
        total := |queue[0]| - consumed;
        ghost var left := Pending();
        assert left[..1] == [] + [left[0]];
        FlattenSnoc([], left[0]);
        for i := 1 to |queue|
          invariant total == |Flatten(left[..i])|
        {
          FlattenSnoc(left[..i], left[i]);
          assert left[..i] + [left[i]] == left[..i + 1];
          total := total + |queue[i]|;
        }
        assert left[..|queue|] == left;
      }
    }
  }

  // ------------------------------------------------------------------- the socket

  /** What one `send` on the socket did. */
  datatype Io = Sent(n: nat) | Failed(error: nat)

  /** The outcome of every call, by its number: any behaviour a socket can show in a run. */
  type Socket = nat -> Io

  /** A socket never takes more than it is offered. */
  function Outcome(socket: Socket, call: nat, size: nat): (io: Io)
    ensures io.Sent? ==> io.n <= size
  {
    match socket(call)
    case Sent(n) => Sent(if n <= size then n else size)
    case Failed(e) => Failed(e)
  }

  // ------------------------------------------------------------------- specification

  /** What is left to send, what the socket has taken, and how often it was called. */
  datatype Path = Path(chunks: Chunks, wire: seq<Byte>, calls: nat)

  datatype Flushing = Flushing(path: Path, error: Option<nat>)

  /** The front chunk is offered; if all of it is taken the next one follows, otherwise that is all. */
  function Flushed(socket: Socket, p: Path): Flushing
    decreases |p.chunks|
  {
    if p.chunks == [] then Flushing(p, None)
    else
      var view := p.chunks[0];
      var io := Outcome(socket, p.calls, |view|);
      if io.Failed? then Flushing(p.(calls := p.calls + 1), Some(io.error))
      else if io.n < |view| then
        Flushing(Path([view[io.n..]] + p.chunks[1..], p.wire + view[..io.n], p.calls + 1), None)
      else Flushed(socket, Path(p.chunks[1..], p.wire + view, p.calls + 1))
  }

  /** A send is accepted if it fits beside what is pending and can be copied; nothing always fits. */
  predicate Accepts(limit: nat, chunks: Chunks, data: seq<Byte>, cloneFails: bool) {
    data == [] || (|Flatten(chunks)| + |data| <= limit && !cloneFails)
  }

  function Enqueued(limit: nat, p: Path, data: seq<Byte>, cloneFails: bool): Path {
    if Accepts(limit, p.chunks, data, cloneFails) && data != [] then p.(chunks := p.chunks + [data]) else p
  }

  datatype Result = Ok(n: nat) | Error(error: nat)

  /** What `Send` answers: whether the data was accepted has no part in it. */
  function Answer(f: Flushing, n: nat): Result {
    if f.error.None? then Ok(n) else Error(f.error.value)
  }

  // ------------------------------------------------------------------- the connection

  const ENOTCONN: nat := 107

  class Connection {
    const buffer: SendBuffer
    const socket: Socket
    var connected: bool
    var bytesSent: nat
    var calls: nat
    var wire: seq<Byte>

    ghost predicate Valid()
      reads this, buffer
    {
      buffer.Valid() && bytesSent == |wire|
    }

    ghost function State(): Path
      reads this, buffer
      requires Valid()
    {
      Path(buffer.Pending(), wire, calls)
    }

    constructor (limit: nat, socket: Socket)
      ensures Valid() && fresh(buffer) && buffer.limit == limit && this.socket == socket && connected
      ensures State() == Path([], [], 0)
    {
      buffer := new SendBuffer(limit);
      this.socket := socket;
      connected, bytesSent, calls, wire := true, 0, 0, [];
    }

    /** `send` on the descriptor: what is taken is on the wire. */
    method Offer(view: seq<Byte>) returns (io: Io)
      modifies this`calls, this`wire
      ensures io == Outcome(socket, old(calls), |view|) && calls == old(calls) + 1
      ensures wire == if io.Sent? then old(wire) + view[..io.n] else old(wire)
    {
      io := Outcome(socket, calls, |view|);
      calls := calls + 1;
      if io.Sent? {
        wire := wire + view[..io.n];
      }
    }

    method Flush() returns (error: Option<nat>)
      requires Valid()
      modifies this`bytesSent, this`calls, this`wire, buffer
      ensures Valid() && Flushing(State(), error) == Flushed(socket, old(State()))
    {
      ghost var goal := Flushed(socket, State());
      var go := true;
      error := None;
      while go
        invariant Valid() && goal == if go then Flushed(socket, State()) else Flushing(State(), error)
        decreases if go then |buffer.Pending()| + 1 else 0
      {
        go, error := FlushOne();
      }
    }

    /** One turn of the loop: whether it goes on. */
    method FlushOne() returns (go: bool, error: Option<nat>)
      requires Valid()
      modifies this`bytesSent, this`calls, this`wire, buffer
      ensures Valid() && (go ==> |buffer.Pending()| < |old(buffer.Pending())|)
      ensures Flushed(socket, old(State())) == if go then Flushed(socket, State()) else Flushing(State(), error)
    {
      if buffer.queue == [] && buffer.consumed == 0 { return false, None; }
      var view := buffer.PeekSend();
      if view == [] { return false, None; }
      FlushTurn(socket, State());
      var io := Offer(view);
      if io.Failed? { return false, Some(io.error); }
      if io.n > 0 {
        buffer.ConsumeSend(io.n);
        bytesSent := bytesSent + io.n;
      }
      return io.n == |view|, None;
    }

    /** Enqueues and flushes; the result of enqueueing is not looked at. */
    method Send(data: seq<Byte>, cloneFails: bool) returns (r: Result)
      requires Valid()
      modifies this`bytesSent, this`calls, this`wire, buffer
      ensures Valid()
      ensures !connected ==> r == Error(ENOTCONN) && State() == old(State())
      ensures connected ==>
                var f := Flushed(socket, Enqueued(buffer.limit, old(State()), data, cloneFails));
                State() == f.path && r == Answer(f, |data|)
    {
      if !connected { return Error(ENOTCONN); }
      var ok := buffer.EnqueueSend(data, cloneFails);
      var error := Flush();
      if error.None? { return Ok(|data|); }
      return Error(error.value);
    }
  }

  /** One turn of flushing, with the bytes taken off the queue as `ConsumeSend` does it. */
  lemma FlushTurn(socket: Socket, p: Path)
    requires p.chunks != [] && p.chunks[0] != []
    ensures var view := p.chunks[0];
            var io := Outcome(socket, p.calls, |view|);
            Flushed(socket, p)
            == if io.Failed? then Flushing(p.(calls := p.calls + 1), Some(io.error))
               else
                 var q := Path(Without(p.chunks, io.n), p.wire + view[..io.n], p.calls + 1);
                 if io.n < |view| then Flushing(q, None) else Flushed(socket, q)
    ensures Without(p.chunks, 0) == p.chunks
    ensures |Without(p.chunks, |p.chunks[0]|)| < |p.chunks|
  {
    var view := p.chunks[0];
    var io := Outcome(socket, p.calls, |view|);
    FrontTaken(p.chunks, if io.Sent? then io.n else 0);
    FrontTaken(p.chunks, |view|);
    assert view[..|view|] == view;
  }

  /** Taking part of the front chunk, or all of it. */
  lemma FrontTaken(chunks: Chunks, n: nat)
    requires chunks != [] && chunks[0] != [] && n <= |chunks[0]|
    ensures Without(chunks, n)
            == if n < |chunks[0]| then [chunks[0][n..]] + chunks[1..] else chunks[1..]
  {
    if n == 0 {
      assert chunks == [chunks[0][0..]] + chunks[1..];
    }
  }

  // ------------------------------------------------------------------- what a flush does

  /** Nothing is lost, doubled or reordered, and chunks stay solid. */
  lemma {:induction false} FlushConserves(socket: Socket, p: Path)
    requires Solid(p.chunks)
    ensures var q := Flushed(socket, p).path;
            && q.wire + Flatten(q.chunks) == p.wire + Flatten(p.chunks)
            && p.wire <= q.wire && Solid(q.chunks)
    decreases |p.chunks|
  {
    if p.chunks != [] {
      var view, rest := p.chunks[0], p.chunks[1..];
      var io := Outcome(socket, p.calls, |view|);
      if io.Sent? && io.n == |view| {
        assert (p.wire + view) + Flatten(rest) == p.wire + Flatten(p.chunks);
        FlushConserves(socket, Path(rest, p.wire + view, p.calls + 1));
      } else if io.Sent? {
        PartConserves(p.wire, view, rest, io.n);
      }
    }
  }

  lemma PartConserves(wire: seq<Byte>, view: seq<Byte>, rest: Chunks, n: nat)
    requires n < |view|
    ensures (wire + view[..n]) + Flatten([view[n..]] + rest) == wire + (view + Flatten(rest))
  {
    assert ([view[n..]] + rest)[1..] == rest;
    assert view[..n] + view[n..] == view;
  }

  /** The socket takes the whole of the i-th chunk when that is its turn. */
  predicate TakesWhole(socket: Socket, p: Path, i: nat)
    requires i < |p.chunks|
  {
    Outcome(socket, p.calls + i, |p.chunks[i]|) == Sent(|p.chunks[i]|)
  }

  ghost predicate WholeUpTo(socket: Socket, p: Path, k: nat) {
    k <= |p.chunks| && forall i :: 0 <= i < k ==> TakesWhole(socket, p, i)
  }

  /** The path when the first k chunks have been taken whole. */
  function Past(p: Path, k: nat): Path
    requires k <= |p.chunks|
  {
    Path(p.chunks[k..], p.wire + Flatten(p.chunks[..k]), p.calls + k)
  }

  lemma PastNext(p: Path, k: nat)
    requires k < |p.chunks|
    ensures var q := Past(p, k);
            q.chunks[0] == p.chunks[k] && Past(p, k + 1) == Path(q.chunks[1..], q.wire + q.chunks[0], q.calls + 1)
  {
    FlattenSnoc(p.chunks[..k], p.chunks[k]);
    assert p.chunks[..k] + [p.chunks[k]] == p.chunks[..k + 1];
  }

  lemma {:induction false} FlushGoesOn(socket: Socket, p: Path, k: nat)
    requires WholeUpTo(socket, p, k)
    ensures Flushed(socket, p) == Flushed(socket, Past(p, k))
  {
    if k == 0 {
      assert Past(p, 0) == p;
    } else {
      FlushGoesOn(socket, p, k - 1);
      PastNext(p, k - 1);
      assert TakesWhole(socket, p, k - 1);
    }
  }

  /** If every call takes all it is offered, everything goes on the wire. */
  lemma FlushTakesAll(socket: Socket, p: Path)
    requires WholeUpTo(socket, p, |p.chunks|)
    ensures Flushed(socket, p) == Flushing(Path([], p.wire + Flatten(p.chunks), p.calls + |p.chunks|), None)
  {
    FlushGoesOn(socket, p, |p.chunks|);
    assert p.chunks[..|p.chunks|] == p.chunks;
  }

  /** The call at the front of `p` was the last: what it took is on the wire, its failure is the error. */
  predicate EndsHere(socket: Socket, p: Path, f: Flushing)
    requires p.chunks != []
  {
    var view := p.chunks[0];
    var io := Outcome(socket, p.calls, |view|);
    && f.path.calls == p.calls + 1
    && f.path.wire == p.wire + (if io.Sent? then view[..io.n] else [])
    && f.error == if io.Failed? then Some(io.error) else None
  }

  lemma FlushEndsHere(socket: Socket, p: Path)
    requires p.chunks != [] && !TakesWhole(socket, p, 0)
    ensures EndsHere(socket, p, Flushed(socket, p))
  {
    assert p.wire + [] == p.wire;
  }

  lemma WholeAt(socket: Socket, p: Path, k: nat)
    requires k < |p.chunks|
    ensures Past(p, k).chunks != [] && TakesWhole(socket, Past(p, k), 0) == TakesWhole(socket, p, k)
  {}

  /**
   Otherwise flushing goes on exactly up to the first call that does not: with k chunks taken whole
   before, these and what that call took are on the wire.
   */
  lemma FlushStopsAt(socket: Socket, p: Path, k: nat)
    requires WholeUpTo(socket, p, k) && k < |p.chunks| && !TakesWhole(socket, p, k)
    ensures EndsHere(socket, Past(p, k), Flushed(socket, p))
  {
    WholeAt(socket, p, k);
    FlushEndsHere(socket, Past(p, k));
    FlushGoesOn(socket, p, k);
  }

  // ------------------------------------------------------------------- whole runs

  datatype Op = SendOp(data: seq<Byte>, cloneFails: bool) | FlushOp

  /** A run so far: the path, the sends that were accepted, and what the calls answered. */
  datatype Trace = Trace(path: Path, accepted: Chunks, replies: seq<Result>)

  function Step(limit: nat, socket: Socket, t: Trace, op: Op): Trace {
    match op
    case FlushOp =>
      var f := Flushed(socket, t.path);
      Trace(f.path, t.accepted, t.replies + [Answer(f, 0)])
    case SendOp(data, cloneFails) =>
      var f := Flushed(socket, Enqueued(limit, t.path, data, cloneFails));
      Trace(f.path,
            if Accepts(limit, t.path.chunks, data, cloneFails) then t.accepted + [data] else t.accepted,
            t.replies + [Answer(f, |data|)])
  }

  function After(limit: nat, socket: Socket, ops: seq<Op>): Trace {
    if ops == [] then Trace(Path([], [], 0), [], [])
    else Step(limit, socket, After(limit, socket, ops[..|ops| - 1]), ops[|ops| - 1])
  }

  /** Wire followed by pending is the accepted sends, whole and in order; pending is within the limit. */
  ghost predicate Conserves(limit: nat, t: Trace) {
    && Solid(t.path.chunks)
    && t.path.wire + Flatten(t.path.chunks) == Flatten(t.accepted)
    && |Flatten(t.path.chunks)| <= limit
  }

  lemma EnqueueConserves(limit: nat, t: Trace, data: seq<Byte>, cloneFails: bool)
    requires Conserves(limit, t)
    ensures var p := Enqueued(limit, t.path, data, cloneFails);
            var accepted := if Accepts(limit, t.path.chunks, data, cloneFails) then t.accepted + [data] else t.accepted;
            Conserves(limit, Trace(p, accepted, t.replies))
  {
    FlattenSnoc(t.accepted, data);
    FlattenSnoc(t.path.chunks, data);
    assert t.path.wire + (Flatten(t.path.chunks) + data) == (t.path.wire + Flatten(t.path.chunks)) + data;
  }

  lemma FlushKeepsConserving(limit: nat, socket: Socket, t: Trace, replies: seq<Result>)
    requires Conserves(limit, t)
    ensures Conserves(limit, Trace(Flushed(socket, t.path).path, t.accepted, replies))
  {
    FlushConserves(socket, t.path);
    var q := Flushed(socket, t.path).path;
    assert |q.wire + Flatten(q.chunks)| == |t.path.wire + Flatten(t.path.chunks)|;
  }

  /** Conservation over every run of sends and flushes, against every socket. */
  lemma {:induction false} Conservation(limit: nat, socket: Socket, ops: seq<Op>)
    ensures Conserves(limit, After(limit, socket, ops))
  {
    if ops != [] {
      var before, op := After(limit, socket, ops[..|ops| - 1]), ops[|ops| - 1];
      var replies := Step(limit, socket, before, op).replies;
      Conservation(limit, socket, ops[..|ops| - 1]);
      match op
      case FlushOp => FlushKeepsConserving(limit, socket, before, replies);
      case SendOp(data, cloneFails) =>
        EnqueueConserves(limit, before, data, cloneFails);
        var accepted := Step(limit, socket, before, op).accepted;
        FlushKeepsConserving(limit, socket,
                             Trace(Enqueued(limit, before.path, data, cloneFails), accepted, before.replies), replies);
    }
  }

  /** After any run: a send that fits beside what is pending and can be copied is accepted, and no other is. */
  lemma AcceptedIfFits(limit: nat, socket: Socket, ops: seq<Op>, data: seq<Byte>, cloneFails: bool)
    requires data != []
    ensures var t, u := After(limit, socket, ops), After(limit, socket, ops + [SendOp(data, cloneFails)]);
            u.accepted == if |Flatten(t.path.chunks)| + |data| <= limit && !cloneFails then t.accepted + [data]
                          else t.accepted
  {
    assert (ops + [SendOp(data, cloneFails)])[..|ops|] == ops;
  }

  /** What a run sends, in order. */
  function Data(ops: seq<Op>): Chunks {
    if ops == [] then []
    else
      var last := ops[|ops| - 1];
      Data(ops[..|ops| - 1]) + if last.SendOp? then [last.data] else []
  }

  ghost predicate AllCopied(ops: seq<Op>) {
    forall i :: 0 <= i < |ops| ==> ops[i].SendOp? ==> !ops[i].cloneFails
  }

  /** Sends that fit within the limit all together are all accepted, however slowly the socket takes them. */
  lemma {:induction false} AllAccepted(limit: nat, socket: Socket, ops: seq<Op>)
    requires AllCopied(ops) && |Flatten(Data(ops))| <= limit
    ensures After(limit, socket, ops).accepted == Data(ops)
  {
    if ops != [] {
      var n := |ops| - 1;
      var before, last := ops[..n], ops[n];
      if last.SendOp? {
        FlattenSnoc(Data(before), last.data);
      } else {
        assert Data(before) + [] == Data(before);
      }
      AllAccepted(limit, socket, before);
      Conservation(limit, socket, before);
      AcceptedNext(limit, socket, After(limit, socket, before), last);
    }
  }

  lemma AcceptedNext(limit: nat, socket: Socket, t: Trace, op: Op)
    requires op.SendOp? ==> !op.cloneFails && |Flatten(t.path.chunks)| + |op.data| <= limit
    ensures Step(limit, socket, t, op).accepted == t.accepted + if op.SendOp? then [op.data] else []
  {}

  /** Once the socket takes all it is offered, one flush puts every accepted byte on the wire. */
  lemma EverythingArrives(limit: nat, socket: Socket, ops: seq<Op>)
    requires var p := After(limit, socket, ops).path;
             WholeUpTo(socket, p, |p.chunks|)
    ensures var t := After(limit, socket, ops + [FlushOp]);
            t.path.chunks == [] && t.path.wire == Flatten(After(limit, socket, ops).accepted)
  {
    var p := After(limit, socket, ops).path;
    Conservation(limit, socket, ops);
    FlushTakesAll(socket, p);
    assert (ops + [FlushOp])[..|ops|] == ops;
  }

  /** The send is answered with its full length. */
  predicate AnsweredOk(limit: nat, socket: Socket, t: Trace, data: seq<Byte>, cloneFails: bool) {
    var after := Step(limit, socket, t, SendOp(data, cloneFails));
    after.replies == t.replies + [Ok(|data|)]
  }

  /** It is among the accepted sends. */
  predicate WasAccepted(limit: nat, socket: Socket, t: Trace, data: seq<Byte>, cloneFails: bool) {
    Step(limit, socket, t, SendOp(data, cloneFails)).accepted == t.accepted + [data]
  }

  lemma AnswerOf(limit: nat, socket: Socket, t: Trace, data: seq<Byte>, cloneFails: bool)
    ensures AnsweredOk(limit, socket, t, data, cloneFails)
            <==> Flushed(socket, Enqueued(limit, t.path, data, cloneFails)).error.None?
    ensures WasAccepted(limit, socket, t, data, cloneFails) <==> Accepts(limit, t.path.chunks, data, cloneFails)
  {
    var f := Flushed(socket, Enqueued(limit, t.path, data, cloneFails));
    assert (t.replies + [Answer(f, |data|)])[|t.replies|] == Answer(f, |data|);
    assert (t.replies + [Ok(|data|)])[|t.replies|] == Ok(|data|);
    assert |t.accepted + [data]| != |t.accepted|;
  }

  /**
   A send that is refused, whatever is pending, is answered with its full length exactly when the
   flush of what is pending meets no error.
   */
  lemma RefusedButReported(limit: nat, socket: Socket, t: Trace, data: seq<Byte>, cloneFails: bool)
    ensures AnsweredOk(limit, socket, t, data, cloneFails) && !WasAccepted(limit, socket, t, data, cloneFails)
            <==> !Accepts(limit, t.path.chunks, data, cloneFails) && Flushed(socket, t.path).error.None?
  {
    AnswerOf(limit, socket, t, data, cloneFails);
  }

  lemma {:induction false} NoFailureNoError(socket: Socket, p: Path)
    requires forall call :: socket(call).Sent?
    ensures Flushed(socket, p).error.None?
    decreases |p.chunks|
  {
    if p.chunks != [] {
      var view := p.chunks[0];
      NoFailureNoError(socket, Path(p.chunks[1..], p.wire + view, p.calls + 1));
    }
  }

  /** A success means that the data was accepted, whatever the socket does, if and only if it was acceptable. */
  lemma SuccessMeansAcceptedIff(limit: nat, t: Trace, data: seq<Byte>, cloneFails: bool)
    ensures (forall socket: Socket ::
               AnsweredOk(limit, socket, t, data, cloneFails) ==> WasAccepted(limit, socket, t, data, cloneFails))
            <==> Accepts(limit, t.path.chunks, data, cloneFails)
  {
    forall socket: Socket
      ensures WasAccepted(limit, socket, t, data, cloneFails) <==> Accepts(limit, t.path.chunks, data, cloneFails)
    {
      AnswerOf(limit, socket, t, data, cloneFails);
    }
    var idle: Socket := _ => Sent(0);
    NoFailureNoError(idle, t.path);
    RefusedButReported(limit, idle, t, data, cloneFails);
  }

  /** The run itself, on the connection: everything about it is as specified. */
  method Drive(limit: nat, socket: Socket, ops: seq<Op>)
    returns (wire: seq<Byte>, pending: nat, bytesSent: nat, replies: seq<Result>)
    ensures var t := After(limit, socket, ops);
            && wire == t.path.wire && replies == t.replies
            && pending == |Flatten(t.path.chunks)| && bytesSent == |t.path.wire|
  {
    var c := new Connection(limit, socket);
    replies := [];
    for i := 0 to |ops|
      invariant fresh(c) && fresh(c.buffer) && c.Valid() && c.connected && c.buffer.limit == limit && c.socket == socket
      invariant c.State() == After(limit, socket, ops[..i]).path && replies == After(limit, socket, ops[..i]).replies
    {
      var r := Perform(c, ops[i]);
      replies := replies + [r];
      assert ops[..i + 1][..i] == ops[..i];
    }
    assert ops[..|ops|] == ops;
    wire, bytesSent := c.wire, c.bytesSent;
    pending := c.buffer.GetSendQueueSize();
  }

  method Perform(c: Connection, op: Op) returns (r: Result)
    requires c.Valid() && c.connected
    modifies c`bytesSent, c`calls, c`wire, c.buffer
    ensures c.Valid()
    ensures forall accepted, replies ::
              var t := Step(c.buffer.limit, c.socket, Trace(old(c.State()), accepted, replies), op);
              c.State() == t.path && t.replies == replies + [r]
  {
    match op
    case SendOp(data, cloneFails) => r := c.Send(data, cloneFails);
    case FlushOp =>
      var error := c.Flush();
      r := if error.None? then Ok(0) else Error(error.value);
  }

  /** With a limit of zero a byte is refused, reported as sent, and never goes anywhere. */
  method RefusedRun(socket: Socket) returns (wire: seq<Byte>, pending: nat, replies: seq<Result>)
    ensures wire == [] && pending == 0 && replies == [Ok(1)]
  {
    var ops := [SendOp([1], false)];
    var sent: nat;
    wire, pending, sent, replies := Drive(0, socket, ops);
    assert ops[..0] == [];
    assert Flushed(socket, Path([], [], 0)).error.None?;
  }
}
