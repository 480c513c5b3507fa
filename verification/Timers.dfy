/**
 The timer thread of `async_scheduler_impl.cpp` and the calls that feed it, as
 a system of interleaved steps over one steady clock.

 The callers read the clock before they take `timer_mutex`, and the timer thread
 submits a task and re-arms it after it has let the mutex go, so that time passes
 and other threads run in between.
 */
module Timers {

  /** A call of ScheduleAfter (`interval` zero) or ScheduleEvery (`interval` the delay). */
  datatype Request = Request(created: nat, delay: int, interval: nat)

  /** An entry of `timer_queue`: the `round`-th of its request. */
  datatype Entry = Entry(timer: nat, round: nat, expire: nat, interval: nat, id: nat)

  /** A call of ScheduleTask on behalf of a request; `sampled` is the clock that was compared. */
  datatype Submission = Submission(timer: nat, round: nat, expire: nat, sampled: nat, at: nat)

  /** Where the timer thread is in `timerLoop`. */
  datatype Pc =
    | Top                              // about to test `timer_running`
    | Looking                          // past the test, the mutex still to be taken
    | Waiting(notified: bool)          // blocked on `timer_cv` with an empty queue, or woken from there
    | Due(entry: Entry, now: nat)      // the entry is popped, the mutex released
    | Rearming(entry: Entry, now: nat) // submitted; a periodic entry is still to be pushed again
    | Exited

  datatype State = State(
    clock: nat,
    running: bool,
    requests: seq<Request>,
    pushing: set<Entry>,    // entries whose callers have not taken the mutex yet
    queue: set<Entry>,
    nextId: nat,
    pc: Pc,
    notifies: nat,          // pushes whose notification is still to come
    log: seq<Submission>,
    dropped: set<nat>)      // requests whose entry was in the queue when Stop emptied it

  datatype Step =
    | Tick(amount: nat)
    | Schedule(delay: int, periodic: bool)
    | Push(entry: Entry)
    | Test
    | Park                 // the queue is empty
    | Notify               // the notification that follows a push
    | Spurious             // a wake-up without a notification
    | Wake                 // the mutex is taken again and the predicate tested
    | NotDue               // the predicate given to `wait_for` holds at once
    | Pop(entry: Entry)
    | Submit
    | Rearm
    | StopTimer            // `timer_running = false`
    | Clear                // after the thread has been joined

  function Initial(clock: nat): State {
    State(clock, true, [], {}, {}, 0, Top, 0, [], {})
  }

  /** `top()` of the heap: no entry expires earlier. */
  ghost predicate Least(queue: set<Entry>, e: Entry) {
    e in queue && forall f :: f in queue ==> e.expire <= f.expire
  }

  ghost predicate Enabled(s: State, step: Step) {
    match step
    case Tick(_) => true
    case Schedule(_, _) => true
    case Push(e) => e in s.pushing
    case Test => s.pc.Top?
    case Park => s.pc.Looking? && s.queue == {}
    case Notify => s.notifies > 0
    case Spurious => s.pc == Waiting(false)
    case Wake => s.pc == Waiting(true)
    case NotDue => s.pc.Looking? && s.queue != {} && forall e :: e in s.queue ==> s.clock < e.expire
    case Pop(e) => s.pc.Looking? && Least(s.queue, e) && e.expire <= s.clock
    case Submit => s.pc.Due?
    case Rearm => s.pc.Rearming?
    case StopTimer => true
    case Clear => s.pc.Exited?
  }

  function Scheduled(s: State, delay: int, periodic: bool): State {
    var timer := |s.requests|;
    if delay <= 0 then
      // no timer: the task is submitted by the caller
      s.(requests := s.requests + [Request(s.clock, delay, 0)],
         log := s.log + [Submission(timer, 1, s.clock, s.clock, s.clock)])
    else
      var interval := if periodic then delay else 0;
      s.(requests := s.requests + [Request(s.clock, delay, interval)],
         nextId := s.nextId + 1,
         pushing := s.pushing + {Entry(timer, 1, s.clock + delay, interval, s.nextId + 1)})
  }

  function Notified(pc: Pc): Pc {
    if pc.Waiting? then Waiting(true) else pc
  }

  function Timers(queue: set<Entry>): set<nat> {
    set e | e in queue :: e.timer
  }

  ghost function Apply(s: State, step: Step): State
    requires Enabled(s, step)
  {
    match step
    case Tick(n) => s.(clock := s.clock + n)
    case Schedule(delay, periodic) => Scheduled(s, delay, periodic)
    case Push(e) => s.(pushing := s.pushing - {e}, queue := s.queue + {e}, notifies := s.notifies + 1)
    case Test => s.(pc := if s.running then Looking else Exited)
    case Park => s.(pc := if s.running then Waiting(false) else Exited)
    case Notify => s.(notifies := s.notifies - 1, pc := Notified(s.pc))
    case Spurious => s.(pc := Waiting(true))
    case Wake => s.(pc := if !s.running then Exited else if s.queue != {} then Top else Waiting(false))
    case NotDue => s.(pc := Top)
    case Pop(e) => s.(queue := s.queue - {e}, pc := Due(e, s.clock))
    case Submit =>
      var e, now := s.pc.entry, s.pc.now;
      s.(log := s.log + [Submission(e.timer, e.round, e.expire, now, s.clock)],
         pc := if e.interval > 0 then Rearming(e, now) else Top)
    case Rearm =>
      var e := s.pc.entry;
      s.(queue := s.queue + {Entry(e.timer, e.round + 1, s.pc.now + e.interval, e.interval, s.nextId + 1)},
         nextId := s.nextId + 1, pc := Top)
    case StopTimer => s.(running := false, pc := Notified(s.pc))
    case Clear => s.(queue := {}, dropped := s.dropped + Timers(s.queue))
  }

  ghost predicate Leads(s: State, run: seq<Step>, t: State)
    decreases |run|
  {
    if run == [] then s == t
    else Enabled(s, run[0]) && Leads(Apply(s, run[0]), run[1..], t)
  }

  ghost predicate Reachable(t: State) {
    exists clock: nat, run: seq<Step> :: Leads(Initial(clock), run, t)
  }

  // ------------------------------------------------------------ submissions of one request

  /** How often a request has been submitted. */
  function Times(log: seq<Submission>, timer: nat): nat {
    if log == [] then 0
    else Times(log[..|log| - 1], timer) + if log[|log| - 1].timer == timer then 1 else 0
  }

  lemma TimesMore(log: seq<Submission>, sub: Submission, timer: nat)
    ensures Times(log + [sub], timer) == Times(log, timer) + if sub.timer == timer then 1 else 0
  {
    assert (log + [sub])[..|log|] == log;
  }

  /** When the first round is due: a delay that is not positive is none. */
  function First(r: Request): nat {
    if r.delay > 0 then r.created + r.delay else r.created
  }

  /** The earliest moment for a round of a request. */
  function Earliest(r: Request, round: nat): int
    requires round >= 1
  {
    First(r) + (round - 1) * r.interval
  }

  // ------------------------------------------------------------ invariant

  /** Where an entry can be: on its way to the queue, in it, or in the hands of the timer thread. */
  datatype Place = Pushing | Queued | Held

  predicate InHand(pc: Pc) { pc.Due? || pc.Rearming? }

  ghost predicate At(s: State, place: Place, e: Entry) {
    match place
    case Pushing => e in s.pushing
    case Queued => e in s.queue
    case Held => InHand(s.pc) && s.pc.entry == e
  }

  /** The first round expires as requested, a later one an interval after the clock of the one before. */
  ghost predicate Follows(requests: seq<Request>, log: seq<Submission>, timer: nat, round: nat, expire: nat) {
    timer < |requests| &&
    if round == 1 then expire == First(requests[timer])
    else exists j :: 0 <= j < |log| && log[j].timer == timer && log[j].round == round - 1
                     && expire == log[j].sampled + requests[timer].interval
  }

  /** A round of a request and its deadline: not before its time, and only the first unless periodic. */
  ghost predicate Legitimate(s: State, timer: nat, round: nat, expire: nat) {
    && timer < |s.requests| && round >= 1
    && (s.requests[timer].interval == 0 ==> round == 1)
    && expire >= Earliest(s.requests[timer], round)
  }

  /** How many rounds must have been submitted while an entry is at a place. */
  function Done(s: State, place: Place, e: Entry): int {
    if place.Held? && s.pc.Rearming? then e.round else e.round - 1
  }

  ghost predicate EntryOk(s: State, place: Place, e: Entry) {
    && Legitimate(s, e.timer, e.round, e.expire)
    && Follows(s.requests, s.log, e.timer, e.round, e.expire)
    && e.interval == s.requests[e.timer].interval && s.requests[e.timer].delay > 0
    && e.timer !in s.dropped
    && Times(s.log, e.timer) == Done(s, place, e)
  }

  ghost predicate EntriesOk(s: State) {
    forall place, e :: At(s, place, e) ==> EntryOk(s, place, e)
  }

  /** No request has two entries. */
  ghost predicate OneEntry(s: State) {
    forall p, e, q, f :: At(s, p, e) && At(s, q, f) && e.timer == f.timer ==> p == q && e == f
  }

  ghost predicate SubmissionOk(s: State, j: nat)
    requires j < |s.log|
  {
    var sub := s.log[j];
    && Legitimate(s, sub.timer, sub.round, sub.expire)
    && Follows(s.requests, s.log[..j], sub.timer, sub.round, sub.expire)
    && sub.expire <= sub.sampled <= sub.at <= s.clock
    && sub.round == Times(s.log[..j + 1], sub.timer)
  }

  ghost predicate LogOk(s: State) {
    forall j :: 0 <= j < |s.log| ==> SubmissionOk(s, j)
  }

  /** What the timer thread has in hand was due when it read the clock. */
  ghost predicate HandOk(s: State) {
    InHand(s.pc) ==>
      && s.pc.entry.expire <= s.pc.now <= s.clock
      && (s.pc.Rearming? ==>
            s.pc.entry.interval > 0
            && Follows(s.requests, s.log, s.pc.entry.timer, s.pc.entry.round + 1, s.pc.now + s.pc.entry.interval))
  }

  ghost predicate RequestsOk(s: State) {
    && (forall t :: 0 <= t < |s.requests| ==> s.requests[t].created <= s.clock)
    && (forall t :: 0 <= t < |s.requests| ==>
          s.requests[t].interval == 0 || s.requests[t].interval == s.requests[t].delay)
    && (forall t :: t in s.dropped ==> t < |s.requests|)
    && (forall j :: 0 <= j < |s.log| ==> s.log[j].timer < |s.requests|)
  }

  ghost predicate Present(s: State, timer: nat) {
    exists place, e :: At(s, place, e) && e.timer == timer
  }

  /** A request is waiting somewhere, was dropped by Stop, or was for one round and has had it. */
  ghost predicate Settled(s: State, timer: nat)
    requires timer < |s.requests|
  {
    Present(s, timer) || timer in s.dropped || (s.requests[timer].interval == 0 && Times(s.log, timer) == 1)
  }

  ghost predicate AllSettled(s: State) {
    forall t :: 0 <= t < |s.requests| ==> Settled(s, t)
  }

  /** A thread blocked although there is something to see has a notification coming. */
  ghost predicate WillWake(s: State) {
    s.pc == Waiting(false) ==> s.running && (s.queue != {} ==> s.notifies > 0)
  }

  ghost predicate Inv(s: State) {
    RequestsOk(s) && EntriesOk(s) && OneEntry(s) && LogOk(s) && HandOk(s) && AllSettled(s) && WillWake(s)
  }

  // ------------------------------------------------------------ every step keeps it

  /** Steps that move no entry and submit nothing. */
  predicate Quiet(step: Step) {
    !(step.Schedule? || step.Push? || step.Pop? || step.Submit? || step.Rearm? || step.Clear?)
  }

  lemma QuietStep(s: State, step: Step)
    requires Enabled(s, step) && Quiet(step)
    ensures var t := Apply(s, step);
            && t.pushing == s.pushing && t.queue == s.queue && t.requests == s.requests && t.log == s.log
            && t.dropped == s.dropped && t.clock >= s.clock
            && InHand(t.pc) == InHand(s.pc) && (InHand(s.pc) ==> t.pc == s.pc)
  {}

  lemma QuietKeeps(s: State, step: Step)
    requires Inv(s) && Enabled(s, step) && Quiet(step)
    ensures Inv(Apply(s, step))
  {
    var t := Apply(s, step);
    QuietStep(s, step);
    assert forall place, e :: At(t, place, e) <==> At(s, place, e);
    assert forall place, e :: EntryOk(s, place, e) && At(s, place, e) ==> EntryOk(t, place, e);
    assert forall j :: 0 <= j < |s.log| && SubmissionOk(s, j) ==> SubmissionOk(t, j);
    forall k | 0 <= k < |t.requests|
      ensures Settled(t, k)
    {
      assert Settled(s, k);
      if Present(s, k) {
        var place, e :| At(s, place, e) && e.timer == k;
        assert At(t, place, e);
      }
    }
  }

  /** Submissions made stay as they are while requests, the log and the clock grow. */
  lemma LogStays(s: State, t: State)
    requires LogOk(s) && s.requests <= t.requests && s.log <= t.log && s.clock <= t.clock
    ensures forall j :: 0 <= j < |s.log| ==> SubmissionOk(t, j)
  {
    forall j | 0 <= j < |s.log|
      ensures SubmissionOk(t, j)
    {
      assert SubmissionOk(s, j);
      assert t.log[..j] == s.log[..j] && t.log[..j + 1] == s.log[..j + 1] && t.log[j] == s.log[j];
    }
  }

  lemma FollowsStill(requests: seq<Request>, requests': seq<Request>, log: seq<Submission>, log': seq<Submission>,
                     timer: nat, round: nat, expire: nat)
    requires Follows(requests, log, timer, round, expire) && requests <= requests' && log <= log'
    ensures Follows(requests', log', timer, round, expire)
  {
    if round != 1 {
      var j :| 0 <= j < |log| && log[j].timer == timer && log[j].round == round - 1
               && expire == log[j].sampled + requests[timer].interval;
      assert log'[j] == log[j];
    }
  }

  /** An entry that stays at its place, or comes to the queue, is still in order. */
  lemma EntryStays(s: State, t: State, p: Place, q: Place, e: Entry)
    requires EntryOk(s, p, e) && s.requests <= t.requests && s.log <= t.log
    requires Times(t.log, e.timer) - Times(s.log, e.timer) == Done(t, q, e) - Done(s, p, e)
    requires e.timer in t.dropped ==> e.timer in s.dropped
    ensures EntryOk(t, q, e)
  {
    FollowsStill(s.requests, t.requests, s.log, t.log, e.timer, e.round, e.expire);
  }

  /** Nothing is submitted, requested or dropped, and every entry stays present: requests stay settled. */
  lemma SettledStays(s: State, t: State)
    requires AllSettled(s) && s.requests == t.requests && s.log == t.log && s.dropped <= t.dropped
    requires forall p, e :: At(s, p, e) ==> Present(t, e.timer) || e.timer in t.dropped
    ensures AllSettled(t)
  {
    forall k | 0 <= k < |t.requests|
      ensures Settled(t, k)
    {
      assert Settled(s, k);
    }
  }

  // Push: from the callers to the queue.

  function PushedFrom(e: Entry, p: Place, f: Entry): Place {
    if p.Queued? && f == e then Pushing else p
  }

  lemma PushEntries(s: State, e: Entry)
    requires EntriesOk(s) && OneEntry(s) && e in s.pushing
    ensures EntriesOk(Apply(s, Push(e))) && OneEntry(Apply(s, Push(e)))
  {
    var t := Apply(s, Push(e));
    assert At(s, Pushing, e);
    forall p, f | At(t, p, f)
      ensures At(s, PushedFrom(e, p, f), f)
      ensures EntryOk(t, p, f)
    {
      var q := PushedFrom(e, p, f);
      assert At(s, q, f);
      assert Done(t, p, f) == Done(s, q, f);
      EntryStays(s, t, q, p, f);
    }
  }

  lemma PushKeeps(s: State, e: Entry)
    requires Inv(s) && Enabled(s, Push(e))
    ensures Inv(Apply(s, Push(e)))
  {
    var t := Apply(s, Push(e));
    PushEntries(s, e);
    LogStays(s, t);
    forall p, f | At(s, p, f)
      ensures Present(t, f.timer)
    {
      assert At(t, if p.Pushing? && f == e then Queued else p, f);
    }
    SettledStays(s, t);
  }

  // Pop: from the queue to the timer thread.

  lemma PopEntries(s: State, e: Entry)
    requires EntriesOk(s) && OneEntry(s) && Enabled(s, Pop(e))
    ensures EntriesOk(Apply(s, Pop(e))) && OneEntry(Apply(s, Pop(e)))
  {
    var t := Apply(s, Pop(e));
    assert At(s, Queued, e);
    forall p, f | At(t, p, f)
      ensures At(s, if p.Held? then Queued else p, f)
      ensures EntryOk(t, p, f)
    {
      var q := if p.Held? then Queued else p;
      assert At(s, q, f);
      assert Done(t, p, f) == Done(s, q, f);
      EntryStays(s, t, q, p, f);
    }
  }

  lemma PopKeeps(s: State, e: Entry)
    requires Inv(s) && Enabled(s, Pop(e))
    ensures Inv(Apply(s, Pop(e)))
  {
    var t := Apply(s, Pop(e));
    PopEntries(s, e);
    LogStays(s, t);
    forall p, f | At(s, p, f)
      ensures Present(t, f.timer)
    {
      assert At(t, if p.Queued? && f == e then Held else p, f);
    }
    SettledStays(s, t);
  }

  // Submit: one more submission; a one-shot entry is done with, a periodic one stays in hand.

  lemma SubmitEntries(s: State)
    requires EntriesOk(s) && OneEntry(s) && Enabled(s, Submit)
    ensures EntriesOk(Apply(s, Submit)) && OneEntry(Apply(s, Submit))
  {
    var t, e := Apply(s, Submit), s.pc.entry;
    assert At(s, Held, e);
    forall p, f | At(t, p, f)
      ensures At(s, p, f)
      ensures EntryOk(t, p, f)
    {
      assert At(s, p, f);
      TimesMore(s.log, t.log[|s.log|], f.timer);
      assert f.timer == e.timer ==> p.Held? && f == e;
      EntryStays(s, t, p, p, f);
    }
  }

  lemma SubmitLog(s: State)
    requires EntriesOk(s) && LogOk(s) && HandOk(s) && Enabled(s, Submit)
    ensures LogOk(Apply(s, Submit)) && HandOk(Apply(s, Submit))
  {
    var t, e, n := Apply(s, Submit), s.pc.entry, |s.log|;
    assert EntryOk(s, Held, e) by { assert At(s, Held, e); }
    LogStays(s, t);
    TimesMore(s.log, t.log[n], e.timer);
    assert t.log[..n] == s.log && t.log[..n + 1] == t.log;
    assert SubmissionOk(t, n);
    assert Follows(t.requests, t.log, e.timer, e.round + 1, s.pc.now + e.interval) by {
      assert t.log[n].round == e.round;
    }
  }

  lemma SubmitKeeps(s: State)
    requires Inv(s) && Enabled(s, Submit)
    ensures Inv(Apply(s, Submit))
  {
    var t, e := Apply(s, Submit), s.pc.entry;
    assert At(s, Held, e);
    SubmitEntries(s);
    SubmitLog(s);
    forall k | 0 <= k < |t.requests|
      ensures Settled(t, k)
    {
      assert Settled(s, k);
      TimesMore(s.log, t.log[|s.log|], k);
      if k == e.timer {
        assert e.interval > 0 ==> At(t, Held, e);
      } else if Present(s, k) {
        var p, f :| At(s, p, f) && f.timer == k;
        assert At(t, p, f);
      }
    }
  }

  // Rearm: back to the queue with the next round.

  lemma RearmEntries(s: State)
    requires EntriesOk(s) && OneEntry(s) && HandOk(s) && RequestsOk(s) && Enabled(s, Rearm)
    ensures EntriesOk(Apply(s, Rearm)) && OneEntry(Apply(s, Rearm))
  {
    var t, e := Apply(s, Rearm), s.pc.entry;
    var next := Entry(e.timer, e.round + 1, s.pc.now + e.interval, e.interval, s.nextId + 1);
    assert At(s, Held, e);
    forall p, f | At(t, p, f) && f != next
      ensures At(s, p, f) && f.timer != e.timer
      ensures EntryOk(t, p, f)
    {
      assert At(s, p, f);
      EntryStays(s, t, p, p, f);
    }
    NextRound(s);
    assert EntryOk(t, Queued, next);
    assert !At(t, Held, next);
    assert !At(s, Pushing, next);
  }

  /** The next round is not early either. */
  lemma NextRound(s: State)
    requires EntriesOk(s) && HandOk(s) && s.pc.Rearming?
    ensures var e := s.pc.entry;
            Legitimate(s, e.timer, e.round + 1, s.pc.now + e.interval)
  {
    var e := s.pc.entry;
    assert At(s, Held, e);
    var r := s.requests[e.timer];
    assert (e.round + 1 - 1) * r.interval == (e.round - 1) * r.interval + r.interval;
  }

  lemma RearmKeeps(s: State)
    requires Inv(s) && Enabled(s, Rearm)
    ensures Inv(Apply(s, Rearm))
  {
    var t, e := Apply(s, Rearm), s.pc.entry;
    RearmEntries(s);
    LogStays(s, t);
    forall p, f | At(s, p, f)
      ensures Present(t, f.timer)
    {
      if p.Held? {
        assert At(t, Queued, Entry(e.timer, e.round + 1, s.pc.now + e.interval, e.interval, s.nextId + 1));
      } else {
        assert At(t, p, f);
      }
    }
    SettledStays(s, t);
  }

  // Clear: the thread is gone, the queue is emptied.

  lemma ClearKeeps(s: State)
    requires Inv(s) && Enabled(s, Clear)
    ensures Inv(Apply(s, Clear))
  {
    var t := Apply(s, Clear);
    LogStays(s, t);
    forall p, f | At(t, p, f)
      ensures At(s, p, f) && p.Pushing?
      ensures EntryOk(t, p, f)
    {
      assert At(s, p, f);
      forall g | g in s.queue
        ensures g.timer != f.timer
      {
        assert At(s, Queued, g);
      }
      EntryStays(s, t, p, p, f);
    }
    forall p, f | At(s, p, f)
      ensures Present(t, f.timer) || f.timer in t.dropped
    {
      assert p.Pushing? ==> At(t, p, f);
    }
    SettledStays(s, t);
    forall k | k in t.dropped
      ensures k < |t.requests|
    {
      if k !in s.dropped {
        var g :| g in s.queue && g.timer == k;
        assert At(s, Queued, g);
      }
    }
  }

  // Schedule: a new request, submitted at once or on its way to the queue.

  lemma {:induction false} NeverSubmitted(log: seq<Submission>, timer: nat)
    requires forall j :: 0 <= j < |log| ==> log[j].timer < timer
    ensures Times(log, timer) == 0
  {
    if log != [] {
      NeverSubmitted(log[..|log| - 1], timer);
    }
  }

  /** Entries there were before are still there, and still in order. */
  lemma ScheduleOld(s: State, delay: int, periodic: bool)
    requires RequestsOk(s) && EntriesOk(s)
    ensures var t, n := Scheduled(s, delay, periodic), |s.requests|;
            && (forall p, f :: At(s, p, f) ==> f.timer < n && At(t, p, f) && EntryOk(t, p, f))
            && (forall k: nat :: k < n ==> Times(t.log, k) == Times(s.log, k))
  {
    var t, n := Scheduled(s, delay, periodic), |s.requests|;
    forall k: nat | k < n
      ensures Times(t.log, k) == Times(s.log, k)
    {
      if delay <= 0 {
        TimesMore(s.log, t.log[|s.log|], k);
      }
    }
    forall p, f | At(s, p, f)
      ensures f.timer < n && At(t, p, f) && EntryOk(t, p, f)
    {
      assert EntryOk(s, p, f);
      EntryStays(s, t, p, p, f);
    }
  }

  lemma ScheduleEntries(s: State, delay: int, periodic: bool)
    requires RequestsOk(s) && EntriesOk(s) && OneEntry(s)
    ensures var t := Scheduled(s, delay, periodic);
            EntriesOk(t) && OneEntry(t) && (delay > 0 ==> Present(t, |s.requests|))
  {
    var t, n := Scheduled(s, delay, periodic), |s.requests|;
    ScheduleOld(s, delay, periodic);
    if delay <= 0 {
      assert forall p, f :: At(t, p, f) ==> At(s, p, f);
    } else {
      var e := Entry(n, 1, s.clock + delay, if periodic then delay else 0, s.nextId + 1);
      NeverSubmitted(s.log, n);
      assert At(t, Pushing, e) && EntryOk(t, Pushing, e);
      forall p, f | At(t, p, f)
        ensures At(s, p, f) || (p == Pushing && f == e)
      {}
    }
  }

  lemma ScheduleRequests(s: State, delay: int, periodic: bool)
    requires RequestsOk(s)
    ensures RequestsOk(Scheduled(s, delay, periodic))
  {}

  lemma SubmittedAtOnce(s: State, delay: int, periodic: bool)
    requires RequestsOk(s) && delay <= 0
    ensures var t := Scheduled(s, delay, periodic);
            Times(t.log, |s.requests|) == 1 && SubmissionOk(t, |s.log|)
  {
    var t, n := Scheduled(s, delay, periodic), |s.requests|;
    NeverSubmitted(s.log, n);
    TimesMore(s.log, t.log[|s.log|], n);
    assert t.log[..|s.log|] == s.log && t.log[..|s.log| + 1] == t.log;
  }

  lemma ScheduleLog(s: State, delay: int, periodic: bool)
    requires RequestsOk(s) && LogOk(s)
    ensures LogOk(Scheduled(s, delay, periodic))
  {
    LogStays(s, Scheduled(s, delay, periodic));
    if delay <= 0 {
      SubmittedAtOnce(s, delay, periodic);
    }
  }

  lemma ScheduleKeeps(s: State, delay: int, periodic: bool)
    requires Inv(s)
    ensures Inv(Scheduled(s, delay, periodic))
  {
    var t := Scheduled(s, delay, periodic);
    ScheduleOld(s, delay, periodic);
    ScheduleEntries(s, delay, periodic);
    ScheduleRequests(s, delay, periodic);
    ScheduleLog(s, delay, periodic);
    if delay <= 0 {
      SubmittedAtOnce(s, delay, periodic);
    }
    if s.pc.Rearming? {
      FollowsStill(s.requests, t.requests, s.log, t.log, s.pc.entry.timer, s.pc.entry.round + 1,
                   s.pc.now + s.pc.entry.interval);
    }
    forall k | 0 <= k < |t.requests|
      ensures Settled(t, k)
    {
      if k < |s.requests| {
        assert Settled(s, k);
        if Present(s, k) {
          var p, f :| At(s, p, f) && f.timer == k;
          assert At(t, p, f);
        }
      }
    }
  }

  lemma InvStep(s: State, step: Step)
    requires Inv(s) && Enabled(s, step)
    ensures Inv(Apply(s, step))
  {
    match step
    case Schedule(delay, periodic) => ScheduleKeeps(s, delay, periodic);
    case Push(e) => PushKeeps(s, e);
    case Pop(e) => PopKeeps(s, e);
    case Submit => SubmitKeeps(s);
    case Rearm => RearmKeeps(s);
    case Clear => ClearKeeps(s);
    case _ => QuietKeeps(s, step);
  }

  lemma {:induction false} InvRun(s: State, run: seq<Step>, t: State)
    requires Inv(s) && Leads(s, run, t)
    ensures Inv(t)
    decreases |run|
  {
    if run != [] {
      InvStep(s, run[0]);
      InvRun(Apply(s, run[0]), run[1..], t);
    }
  }

  lemma InvReachable(s: State)
    requires Reachable(s)
    ensures Inv(s)
  {
    var clock: nat, run: seq<Step> :| Leads(Initial(clock), run, s);
    InvRun(Initial(clock), run, s);
  }

  // ------------------------------------------------------------ theorems

  /**
   No submission is early: it is made no sooner than the clock that was compared, which is no sooner
   than the deadline, which is no sooner than the k-th round of its request can be. `k` is the
   number of the submission among those of its request.
   */
  lemma NeverEarly(s: State, j: nat)
    requires Reachable(s) && j < |s.log|
    ensures var sub := s.log[j];
            var k := Times(s.log[..j + 1], sub.timer);
            && sub.timer < |s.requests| && k >= 1
            && sub.at >= sub.sampled >= sub.expire
            && var r := s.requests[sub.timer];
               && sub.expire >= First(r)
               && (r.interval > 0 ==> sub.sampled >= r.created + k * r.interval)
  {
    InvReachable(s);
    assert SubmissionOk(s, j);
    var sub := s.log[j];
    var r := s.requests[sub.timer];
    if r.interval > 0 {
      assert r.delay + (sub.round - 1) * r.interval == sub.round * r.interval;
    }
    assert (sub.round - 1) * r.interval >= 0;
  }

  /** Each later round is due exactly one interval after the clock at which the round before was found due. */
  lemma RoundsFollow(s: State, j: nat)
    requires Reachable(s) && j < |s.log|
    ensures var sub := s.log[j];
            Follows(s.requests, s.log[..j], sub.timer, Times(s.log[..j + 1], sub.timer), sub.expire)
  {
    InvReachable(s);
    assert SubmissionOk(s, j);
  }

  lemma {:induction false} LastOf(log: seq<Submission>, timer: nat) returns (j: nat)
    requires Times(log, timer) > 0
    ensures j < |log| && log[j].timer == timer && Times(log[..j + 1], timer) == Times(log, timer)
  {
    var n := |log| - 1;
    if log[n].timer == timer {
      assert log[..n + 1] == log;
      j := n;
    } else {
      j := LastOf(log[..n], timer);
      assert log[..n][..j + 1] == log[..j + 1];
    }
  }

  /** A request that is not periodic is submitted at most once. */
  lemma OneShotOnce(s: State, timer: nat)
    requires Reachable(s) && timer < |s.requests| && s.requests[timer].interval == 0
    ensures Times(s.log, timer) <= 1
  {
    InvReachable(s);
    if Times(s.log, timer) > 0 {
      var j := LastOf(s.log, timer);
      assert SubmissionOk(s, j);
    }
  }

  /**
   Nothing is lost or doubled before Stop empties the queue: a periodic request has exactly one
   entry, and any other one has either an entry or its one submission.
   */
  lemma NothingLost(s: State, timer: nat)
    requires Reachable(s) && timer < |s.requests| && timer !in s.dropped
    ensures s.requests[timer].interval > 0 ==> Present(s, timer)
    ensures s.requests[timer].interval == 0 ==> Times(s.log, timer) == if Present(s, timer) then 0 else 1
    ensures forall p, e, q, f :: At(s, p, e) && At(s, q, f) && e.timer == timer == f.timer ==> p == q && e == f
  {
    InvReachable(s);
    assert Settled(s, timer);
    if Present(s, timer) {
      var p, e :| At(s, p, e) && e.timer == timer;
      assert EntryOk(s, p, e);
    }
  }

  /** A blocked timer thread has not missed a stop, and if there is work in the queue it is about to be woken. */
  lemma TimerWakes(s: State)
    requires Reachable(s) && s.pc == Waiting(false)
    ensures s.running && (s.queue != {} ==> s.notifies > 0)
  {
    InvReachable(s);
  }

  lemma {:induction false} LeastExists(queue: set<Entry>) returns (e: Entry)
    requires queue != {}
    ensures Least(queue, e)
  {
    e :| e in queue;
    if queue != {e} {
      var f := LeastExists(queue - {e});
      if f.expire < e.expire {
        e := f;
      }
    }
  }

  /** With something in the queue the timer thread, or the notification it waits for, can always go on. */
  lemma TimerNeverStuck(s: State) returns (step: Step)
    requires Reachable(s) && s.queue != {} && !s.pc.Exited?
    ensures Enabled(s, step) && !step.Tick? && !step.Schedule? && !step.Push? && !step.StopTimer? && !step.Spurious?
    ensures s.pc.Looking? && (exists e :: e in s.queue && e.expire <= s.clock) ==> step.Pop?
  {
    InvReachable(s);
    var e := LeastExists(s.queue);
    match s.pc
    case Top => step := Test;
    case Looking => step := if e.expire <= s.clock then Pop(e) else NotDue;
    case Waiting(notified) => step := if notified then Wake else Notify;
    case Due(_, _) => step := Submit;
    case Rearming(_, _) => step := Rearm;
  }

  /** Of two entries in the queue the one due earlier is popped first. */
  lemma {:induction false} NoOvertaking(s: State, run: seq<Step>, t: State, e: Entry, f: Entry)
    requires e in s.queue && f in s.queue && e.expire < f.expire
    requires Leads(s, run, t) && Pop(e) !in run && Clear !in run
    ensures Pop(f) !in run && e in t.queue && f in t.queue
    decreases |run|
  {
    if run != [] {
      var next := Apply(s, run[0]);
      assert run == [run[0]] + run[1..];
      assert run[0] != Pop(f);
      NoOvertaking(next, run[1..], t, e, f);
    }
  }

  // ------------------------------------------------------------ how soon

  /** The timer thread's own steps. */
  predicate OfThread(step: Step) {
    step.Test? || step.Park? || step.Wake? || step.NotDue? || step.Pop? || step.Submit? || step.Rearm?
  }

  function ThreadSteps(run: seq<Step>): nat {
    if run == [] then 0 else (if OfThread(run[0]) then 1 else 0) + ThreadSteps(run[1..])
  }

  /** Entries that can be popped before `f`, and `f` itself. */
  ghost function Ahead(s: State, f: Entry): set<Entry> {
    set e | e in s.queue + s.pushing && e.expire <= f.expire
  }

  /** Whether the entry in hand will be back in the queue ahead of `f`. */
  function BackAhead(pc: Pc, f: Entry): nat {
    if InHand(pc) && pc.entry.interval > 0 && pc.now + pc.entry.interval <= f.expire then 1 else 0
  }

  /** Steps until the thread looks at the queue. */
  function ToLook(pc: Pc): nat {
    match pc
    case Due(_, _) => 3 case Rearming(_, _) => 2 case Waiting(_) => 2 case Top => 1 case Looking => 0 case Exited => 0
  }

  ghost function StepsBefore(s: State, f: Entry): nat {
    4 * (|Ahead(s, f)| + BackAhead(s.pc, f)) + ToLook(s.pc)
  }

  /** `f` is due and the thread is there to see it. */
  ghost predicate Overdue(s: State, f: Entry) {
    f in s.queue && f.expire <= s.clock && s.running && !s.pc.Exited?
  }

  lemma PopComesNearer(s: State, e: Entry, f: Entry)
    requires Inv(s) && Overdue(s, f) && Enabled(s, Pop(e)) && e != f
    ensures Overdue(Apply(s, Pop(e)), f) && StepsBefore(Apply(s, Pop(e)), f) < StepsBefore(s, f)
  {
    var t := Apply(s, Pop(e));
    assert At(s, Queued, e) && !At(s, Pushing, e);
    assert Ahead(t, f) == Ahead(s, f) - {e};
  }

  lemma RearmComesNearer(s: State, f: Entry)
    requires Overdue(s, f) && Enabled(s, Rearm)
    requires s.pc.entry.interval > 0
    ensures Overdue(Apply(s, Rearm), f) && StepsBefore(Apply(s, Rearm), f) < StepsBefore(s, f)
  {
    var t, e := Apply(s, Rearm), s.pc.entry;
    var next := Entry(e.timer, e.round + 1, s.pc.now + e.interval, e.interval, s.nextId + 1);
    if next.expire <= f.expire {
      assert Ahead(t, f) == Ahead(s, f) + {next};
    } else {
      assert Ahead(t, f) == Ahead(s, f);
    }
  }

  lemma ThreadComesNearer(s: State, step: Step, f: Entry)
    requires Inv(s) && Overdue(s, f) && Enabled(s, step) && OfThread(step) && step != Pop(f)
    ensures Overdue(Apply(s, step), f) && StepsBefore(Apply(s, step), f) < StepsBefore(s, f)
  {
    match step
    case Pop(e) => PopComesNearer(s, e, f);
    case Rearm => RearmComesNearer(s, f);
    case Submit => assert Ahead(Apply(s, step), f) == Ahead(s, f);
    case Test => assert Ahead(Apply(s, step), f) == Ahead(s, f);
    case Wake => assert Ahead(Apply(s, step), f) == Ahead(s, f);
  }

  /** What others do in the meantime does not put anything new ahead of `f`. */
  lemma OthersDoNotDelay(s: State, step: Step, f: Entry)
    requires Overdue(s, f) && Enabled(s, step) && !OfThread(step) && !step.StopTimer?
    ensures Overdue(Apply(s, step), f) && StepsBefore(Apply(s, step), f) <= StepsBefore(s, f)
  {
    var t := Apply(s, step);
    match step
    case Tick(_) => assert Ahead(t, f) == Ahead(s, f);
    case Schedule(_, _) => assert Ahead(t, f) == Ahead(s, f);
    case Push(e) => assert Ahead(t, f) == Ahead(s, f);
    case Notify => assert Ahead(t, f) == Ahead(s, f);
    case Spurious => assert Ahead(t, f) == Ahead(s, f);
  }

  lemma {:induction false} OverdueRun(s: State, run: seq<Step>, t: State, f: Entry)
    requires Inv(s) && Overdue(s, f) && Leads(s, run, t) && StopTimer !in run && Pop(f) !in run
    ensures ThreadSteps(run) + StepsBefore(t, f) <= StepsBefore(s, f)
    decreases |run|
  {
    if run != [] {
      assert run[0] in run;
      var next := Apply(s, run[0]);
      InvStep(s, run[0]);
      if OfThread(run[0]) {
        ThreadComesNearer(s, run[0], f);
      } else {
        OthersDoNotDelay(s, run[0], f);
      }
      OverdueRun(next, run[1..], t, f);
    }
  }

  /**
   A due entry is popped within a bounded number of the timer thread's own steps, whatever callers
   schedule meanwhile: neither they nor re-armed entries get ahead of it.
   */
  lemma DueIsPopped(s: State, run: seq<Step>, t: State, f: Entry)
    requires Reachable(s) && Overdue(s, f) && Leads(s, run, t) && StopTimer !in run
    ensures ThreadSteps(run) > StepsBefore(s, f) ==> Pop(f) in run
  {
    InvReachable(s);
    if Pop(f) !in run {
      OverdueRun(s, run, t, f);
    }
  }
}
