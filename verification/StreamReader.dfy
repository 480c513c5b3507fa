/**
 The loop shared by the WebSocket session and the HTTP handler: append a chunk
 to a buffer, then take messages off its front until the reader asks for more
 data or a message ends the conversation.

 The module states what a reader must satisfy for such a loop to be independent
 of how the stream was cut into chunks, and proves the independence once.
 */
module StreamReader {

  /** What one look at the front of the buffer yields. */
  datatype Step<+E> = NeedMore | Took(event: E, consumed: nat)

  /** `read` inspects a buffer; `halts` says which events end the loop early. */
  datatype Protocol<!T, !E> = Protocol(read: seq<T> -> Step<E>, halts: E -> bool)

  /** The events of one greedy pass, and the bytes it leaves in the buffer. */
  datatype Drained<T, E> = Drained(events: seq<E>, rest: seq<T>)

  /** A step never reaches past the buffer, and a step that lets the loop go on uses up bytes. */
  ghost predicate Progresses<T(!new), E(!new)>(p: Protocol<T, E>) {
    forall b :: ProgressAt(p, b)
  }

  predicate ProgressAt<T, E>(p: Protocol<T, E>, b: seq<T>) {
    p.read(b).Took? ==> p.read(b).consumed <= |b| && (p.halts(p.read(b).event) || p.read(b).consumed > 0)
  }

  /** A step already decided by the buffer is not changed by later bytes. */
  ghost predicate Stable<T(!new), E(!new)>(p: Protocol<T, E>) {
    forall b, x :: StableAt(p, b, x)
  }

  predicate StableAt<T, E(==)>(p: Protocol<T, E>, b: seq<T>, x: seq<T>) {
    p.read(b).Took? ==> p.read(b + x) == p.read(b)
  }

  ghost predicate Incremental<T(!new), E(!new)>(p: Protocol<T, E>) {
    Progresses(p) && Stable(p)
  }

  ghost function Drain<T(!new), E(!new)>(p: Protocol<T, E>, b: seq<T>): Drained<T, E>
    requires Progresses(p)
    decreases |b|
  {
    assert ProgressAt(p, b);
    match p.read(b)
    case NeedMore => Drained([], b)
    case Took(e, n) =>
      if p.halts(e) then Drained([e], b[n..])
      else Prepend(e, Drain(p, b[n..]))
  }

  function Prepend<T, E>(e: E, d: Drained<T, E>): Drained<T, E> {
    Drained([e] + d.events, d.rest)
  }

  /** One turn of a pass. */
  lemma DrainByRead<T(!new), E(!new)>(p: Protocol<T, E>, b: seq<T>, step: Step<E>)
    requires Progresses(p) && p.read(b) == step
    ensures step.NeedMore? ==> Drain(p, b) == Drained([], b)
    ensures step.Took? ==> step.consumed <= |b|
    ensures step.Took? && p.halts(step.event) ==> Drain(p, b) == Drained([step.event], b[step.consumed..])
    ensures step.Took? && !p.halts(step.event) ==>
              0 < step.consumed && Drain(p, b) == Prepend(step.event, Drain(p, b[step.consumed..]))
  {
    assert ProgressAt(p, b);
  }

  /** `d` on top of what was logged before. */
  function After<T, E>(log: seq<E>, d: Drained<T, E>): Drained<T, E> {
    Drained(log + d.events, d.rest)
  }

  lemma AfterPrepend<T, E>(log: seq<E>, e: E, d: Drained<T, E>)
    ensures After(log, Prepend(e, d)) == After(log + [e], d)
  {
    assert log + ([e] + d.events) == (log + [e]) + d.events;
  }

  predicate Halted<T, E>(p: Protocol<T, E>, events: seq<E>) {
    events != [] && (p.halts(events[0]) || Halted(p, events[1..]))
  }

  /** The events up to and including the first one that ends the conversation. */
  function UpToHalt<T, E>(p: Protocol<T, E>, events: seq<E>): seq<E> {
    if events == [] then []
    else if p.halts(events[0]) then [events[0]]
    else [events[0]] + UpToHalt(p, events[1..])
  }

  function Concat<T>(chunks: seq<seq<T>>): seq<T> {
    if chunks == [] then [] else Concat(chunks[..|chunks| - 1]) + chunks[|chunks| - 1]
  }

  /** All chunks delivered one call at a time. Nothing remembers that a halting event was seen. */
  ghost function Run<T(!new), E(!new)>(p: Protocol<T, E>, chunks: seq<seq<T>>): Drained<T, E>
    requires Progresses(p)
  {
    if chunks == [] then Drained([], [])
    else
      var before := Run(p, chunks[..|chunks| - 1]);
      var d := Drain(p, before.rest + chunks[|chunks| - 1]);
      Drained(before.events + d.events, d.rest)
  }

  lemma {:induction false} UpToHaltAppend<T, E>(p: Protocol<T, E>, xs: seq<E>, ys: seq<E>)
    ensures UpToHalt(p, xs + ys) == if Halted(p, xs) then UpToHalt(p, xs) else xs + UpToHalt(p, ys)
  {
    if xs == [] {
      assert xs + ys == ys;
    } else {
      UpToHaltAppend(p, xs[1..], ys);
      assert (xs + ys)[0] == xs[0] && (xs + ys)[1..] == xs[1..] + ys;
      assert [xs[0]] + (xs[1..] + UpToHalt(p, ys)) == xs + UpToHalt(p, ys);
    }
  }

  /** A greedy pass stops at its first halting event, so nothing in it needs cutting off. */
  lemma {:induction false} DrainIsCut<T(!new), E(!new)>(p: Protocol<T, E>, b: seq<T>)
    requires Progresses(p)
    ensures UpToHalt(p, Drain(p, b).events) == Drain(p, b).events
    decreases |b|
  {
    assert ProgressAt(p, b);
    if p.read(b).Took? && !p.halts(p.read(b).event) {
      var n := p.read(b).consumed;
      DrainIsCut(p, b[n..]);
      assert ([p.read(b).event] + Drain(p, b[n..]).events)[1..] == Drain(p, b[n..]).events;
    }
  }

  /** Where a pass stands once `x` arrives after it. */
  ghost function Resume<T(!new), E(!new)>(p: Protocol<T, E>, d: Drained<T, E>, x: seq<T>): Drained<T, E>
    requires Progresses(p)
  {
    if Halted(p, d.events) then Drained(d.events, d.rest + x)
    else var more := Drain(p, d.rest + x); Drained(d.events + more.events, more.rest)
  }

  lemma ResumePrepend<T(!new), E(!new)>(p: Protocol<T, E>, e: E, d: Drained<T, E>, x: seq<T>)
    requires Progresses(p)
    requires !p.halts(e)
    ensures Resume(p, Prepend(e, d), x) == Prepend(e, Resume(p, d, x))
  {
    assert ([e] + d.events)[1..] == d.events;
    if !Halted(p, d.events) {
      var more := Drain(p, d.rest + x);
      assert ([e] + d.events) + more.events == [e] + (d.events + more.events);
    }
  }

  /**
   The heart of the argument: a pass over `b + x` is a pass over `b`, continued, unless that was
   halted, by a pass over what it left followed by `x`.
   */
  lemma {:induction false} DrainAppend<T(!new), E(!new)>(p: Protocol<T, E>, b: seq<T>, x: seq<T>)
    requires Incremental(p)
    ensures Drain(p, b + x) == Resume(p, Drain(p, b), x)
    decreases |b|
  {
    var step := p.read(b);
    assert ProgressAt(p, b);
    if step.Took? {
      var n := step.consumed;
      assert StableAt(p, b, x);
      assert (b + x)[n..] == b[n..] + x;
      if !p.halts(step.event) {
        DrainAppend(p, b[n..], x);
        ResumePrepend(p, step.event, Drain(p, b[n..]), x);
      }
    }
  }

  /**
   Chunking independence: however the stream is cut, the events up to the first halting one are
   those of a single pass over the whole stream, and without a halting event so is the residue.
   */
  lemma {:induction false} ChunkingIndependence<T(!new), E(!new)>(p: Protocol<T, E>, chunks: seq<seq<T>>)
    requires Incremental(p)
    requires p.read([]).NeedMore?
    ensures UpToHalt(p, Run(p, chunks).events) == Drain(p, Concat(chunks)).events
    ensures Halted(p, Run(p, chunks).events) <==> Halted(p, Drain(p, Concat(chunks)).events)
    ensures !Halted(p, Run(p, chunks).events) ==> Run(p, chunks) == Drain(p, Concat(chunks))
  {
    if chunks != [] {
      var init, last := chunks[..|chunks| - 1], chunks[|chunks| - 1];
      var before := Run(p, init);
      var d := Drain(p, before.rest + last);
      ChunkingIndependence(p, init);
      DrainAppend(p, Concat(init), last);
      UpToHaltAppend(p, before.events, d.events);
      DrainIsCut(p, before.rest + last);
      HaltedAppend(p, before.events, d.events);
    }
  }

  lemma {:induction false} HaltedAppend<T, E>(p: Protocol<T, E>, xs: seq<E>, ys: seq<E>)
    ensures Halted(p, xs + ys) <==> Halted(p, xs) || Halted(p, ys)
  {
    if xs == [] {
      assert xs + ys == ys;
    } else {
      HaltedAppend(p, xs[1..], ys);
      assert (xs + ys)[1..] == xs[1..] + ys;
    }
  }

  /** A step that lets the loop go on depends only on the bytes it uses up. */
  ghost predicate Local<T(!new), E(!new)>(p: Protocol<T, E>) {
    forall b :: LocalAt(p, b)
  }

  predicate LocalAt<T, E(==)>(p: Protocol<T, E>, b: seq<T>) {
    p.read(b).Took? && !p.halts(p.read(b).event) && p.read(b).consumed <= |b|
    ==> p.read(b[..p.read(b).consumed]) == p.read(b)
  }

  /** `b[..n]` is exactly the first `k` events of `b`, none of which halts. */
  ghost predicate IsCut<T(!new), E(!new)>(p: Protocol<T, E>, b: seq<T>, k: nat, n: nat)
    requires Progresses(p)
  {
    var events := Drain(p, b).events;
    && n <= |b| && k <= |events| && !Halted(p, events[..k])
    && Drain(p, b[..n]) == Drained(events[..k], [])
    && Drain(p, b[n..]).events == events[k..]
  }

  lemma CutZero<T(!new), E(!new)>(p: Protocol<T, E>, b: seq<T>)
    requires Progresses(p) && p.read([]).NeedMore?
    ensures IsCut(p, b, 0, 0)
  {
    assert b[..0] == [] && b[0..] == b;
  }

  /** The bytes of one step, on their own, are that step and nothing else. */
  lemma OneStep<T(!new), E(!new)>(p: Protocol<T, E>, b: seq<T>)
    requires Incremental(p) && Local(p) && p.read([]).NeedMore?
    requires |Drain(p, b).events| > 1
    ensures p.read(b).Took? && !p.halts(p.read(b).event) && p.read(b).consumed <= |b|
    ensures var m := p.read(b).consumed;
            Drain(p, b[..m]) == Drained([p.read(b).event], [])
            && Drain(p, b).events == [p.read(b).event] + Drain(p, b[m..]).events
  {
    assert ProgressAt(p, b) && LocalAt(p, b);
    var m := p.read(b).consumed;
    assert b[..m][m..] == [];
  }

  /** A prefix that was used up, followed by the bytes of one more step. */
  lemma DrainOneMore<T(!new), E(!new)>(p: Protocol<T, E>, head: seq<T>, xs: seq<E>, step: seq<T>, e: E)
    requires Incremental(p) && !Halted(p, xs)
    requires Drain(p, head) == Drained(xs, []) && Drain(p, step) == Drained([e], [])
    ensures Drain(p, head + step) == Drained(xs + [e], [])
  {
    DrainAppend(p, head, step);
    assert [] + step == step;
  }

  lemma CutFurther<T(!new), E(!new)>(p: Protocol<T, E>, b: seq<T>, k: nat, n: nat)
    requires Incremental(p) && Local(p) && p.read([]).NeedMore?
    requires IsCut(p, b, k, n) && k + 1 < |Drain(p, b).events|
    ensures IsCut(p, b, k + 1, n + p.read(b[n..]).consumed)
  {
    var events, rest := Drain(p, b).events, b[n..];
    OneStep(p, rest);
    var e, m := p.read(rest).event, p.read(rest).consumed;
    DrainOneMore(p, b[..n], events[..k], rest[..m], e);
    Slices(b, n, m);
    FirstOfRest(events, k, e, Drain(p, rest[m..]).events);
    HaltedAppend(p, events[..k], [e]);
  }

  lemma Slices<T>(s: seq<T>, n: nat, m: nat)
    requires n + m <= |s|
    ensures s[..n] + s[n..][..m] == s[..n + m] && s[n..][m..] == s[n + m..]
  {}

  lemma FirstOfRest<T>(s: seq<T>, k: nat, e: T, tail: seq<T>)
    requires k <= |s| && s[k..] == [e] + tail
    ensures k < |s| && s[..k + 1] == s[..k] + [e] && s[k + 1..] == tail
  {
    assert |s[k..]| == 1 + |tail| && s[k..][0] == e && s[k..][1..] == tail;
  }

  /** The stream can be cut exactly between any two of its events. */
  lemma {:induction false} CutBefore<T(!new), E(!new)>(p: Protocol<T, E>, b: seq<T>, k: nat) returns (n: nat)
    requires Incremental(p) && Local(p) && p.read([]).NeedMore?
    requires k < |Drain(p, b).events|
    ensures IsCut(p, b, k, n)
    decreases k
  {
    if k == 0 {
      CutZero(p, b);
      n := 0;
    } else {
      n := CutBefore(p, b, k - 1);
      CutFurther(p, b, k - 1, n);
      n := n + p.read(b[n..]).consumed;
    }
  }
}
