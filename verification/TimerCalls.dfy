/**
 What a caller of ScheduleAfter, ScheduleEvery or Stop can rely on, over every run that
 goes on from the call: how often the task is submitted, when, and when never again.
 */
module TimerCalls {
  import opened Timers

  // ------------------------------------------------------------ runs that go on

  lemma {:induction false} LeadsOn(s: State, first: seq<Step>, t: State, second: seq<Step>, u: State)
    requires Leads(s, first, t) && Leads(t, second, u)
    ensures Leads(s, first + second, u)
    decreases |first|
  {
    if first == [] {
      assert first + second == second;
    } else {
      LeadsOn(Apply(s, first[0]), first[1..], t, second, u);
      assert (first + second)[1..] == first[1..] + second;
    }
  }

  lemma ReachableOn(s: State, run: seq<Step>, t: State)
    requires Reachable(s) && Leads(s, run, t)
    ensures Reachable(t)
  {
    var clock: nat, first: seq<Step> :| Leads(Initial(clock), first, s);
    LeadsOn(Initial(clock), first, s, run, t);
  }

  lemma ReachableStep(s: State, step: Step)
    requires Reachable(s) && Enabled(s, step)
    ensures Reachable(Apply(s, step))
  {
    assert [step][1..] == [];
    assert Leads(s, [step], Apply(s, step));
    ReachableOn(s, [step], Apply(s, step));
  }

  /** Requests and submissions are never taken back, and only Clear drops an entry. */
  lemma StepGrows(s: State, step: Step)
    requires Enabled(s, step)
    ensures var t := Apply(s, step);
            && s.requests <= t.requests && s.log <= t.log && s.clock <= t.clock
            && s.dropped <= t.dropped && (step != Clear ==> t.dropped == s.dropped)
  {
    match step
    case Tick(_) =>
    case Schedule(delay, _) =>
    case Push(_) =>
    case Test =>
    case Park =>
    case Notify =>
    case Spurious =>
    case Wake =>
    case NotDue =>
    case Pop(_) =>
    case Submit =>
    case Rearm =>
    case StopTimer =>
    case Clear =>
  }

  lemma {:induction false} RunGrows(s: State, run: seq<Step>, t: State)
    requires Leads(s, run, t)
    ensures s.requests <= t.requests && s.log <= t.log && s.clock <= t.clock
    ensures s.dropped <= t.dropped && (Clear !in run ==> t.dropped == s.dropped)
    decreases |run|
  {
    if run != [] {
      StepGrows(s, run[0]);
      RunGrows(Apply(s, run[0]), run[1..], t);
      assert run == [run[0]] + run[1..];
    }
  }

  // ------------------------------------------------------------ the calls

  /** The request of a call stays what the call made it. */
  lemma CallStays(s: State, delay: int, periodic: bool, run: seq<Step>, t: State)
    requires Reachable(s) && Leads(Apply(s, Schedule(delay, periodic)), run, t)
    ensures Reachable(t) && |s.requests| < |t.requests|
    ensures t.requests[|s.requests|] == Apply(s, Schedule(delay, periodic)).requests[|s.requests|]
    ensures Apply(s, Schedule(delay, periodic)).log <= t.log
    ensures Clear !in run ==> |s.requests| !in t.dropped
  {
    var u := Apply(s, Schedule(delay, periodic));
    ReachableStep(s, Schedule(delay, periodic));
    ReachableOn(u, run, t);
    RunGrows(u, run, t);
    InvReachable(s);
  }

  /** A delay that is not positive: submitted by the call itself, and never again. */
  lemma ImmediateOnce(s: State, delay: int, periodic: bool, run: seq<Step>, t: State)
    requires Reachable(s) && Leads(Apply(s, Schedule(delay, periodic)), run, t) && delay <= 0
    ensures Times(t.log, |s.requests|) == 1 && |s.log| < |t.log|
    ensures var sub := t.log[|s.log|]; sub.timer == |s.requests| && sub.at == s.clock
  {
    var u, k := Apply(s, Schedule(delay, periodic)), |s.requests|;
    CallStays(s, delay, periodic, run, t);
    OneShotOnce(t, k);
    TimesGrows(u.log, t.log, k);
    InvReachable(s);
    SubmittedAtOnce(s, delay, periodic);
  }

  lemma {:induction false} TimesGrows(log: seq<Submission>, log': seq<Submission>, timer: nat)
    requires log <= log'
    ensures Times(log, timer) <= Times(log', timer)
  {
    if |log| < |log'| {
      TimesGrows(log, log'[..|log'| - 1], timer);
    } else {
      assert log == log';
    }
  }

  /**
   ScheduleAfter, over every run that goes on from the call: the task is submitted at most once and
   not before the delay has passed since the call read the clock; until Stop empties the queue it has
   been submitted or is still waiting.
   */
  lemma ScheduleAfterOnce(s: State, delay: int, run: seq<Step>, t: State)
    requires Reachable(s) && Leads(Apply(s, Schedule(delay, false)), run, t)
    ensures Times(t.log, |s.requests|) <= 1
    ensures forall j :: 0 <= j < |t.log| && t.log[j].timer == |s.requests| ==> t.log[j].sampled >= s.clock + delay
    ensures Clear !in run ==> Times(t.log, |s.requests|) == if Present(t, |s.requests|) then 0 else 1
  {
    var k := |s.requests|;
    CallStays(s, delay, false, run, t);
    OneShotOnce(t, k);
    forall j | 0 <= j < |t.log| && t.log[j].timer == k
      ensures t.log[j].sampled >= s.clock + delay
    {
      NeverEarly(t, j);
    }
    if Clear !in run {
      NothingLost(t, k);
    }
  }

  /**
   ScheduleEvery with a positive interval: the k-th submission comes no sooner than k intervals after
   the call read the clock, and until Stop empties the queue there is always one entry for the next.
   */
  lemma ScheduleEveryRepeats(s: State, delay: nat, run: seq<Step>, t: State)
    requires Reachable(s) && Leads(Apply(s, Schedule(delay, true)), run, t) && delay > 0
    ensures forall j :: 0 <= j < |t.log| && t.log[j].timer == |s.requests| ==>
              t.log[j].sampled >= s.clock + Times(t.log[..j + 1], |s.requests|) * delay
    ensures Clear !in run ==> Present(t, |s.requests|)
    ensures Clear !in run ==> forall p, e, q, f ::
              At(t, p, e) && At(t, q, f) && e.timer == |s.requests| == f.timer ==> p == q && e == f
  {
    var k := |s.requests|;
    CallStays(s, delay, true, run, t);
    forall j | 0 <= j < |t.log| && t.log[j].timer == k
      ensures t.log[j].sampled >= s.clock + Times(t.log[..j + 1], k) * delay
    {
      NeverEarly(t, j);
    }
    if Clear !in run {
      NothingLost(t, k);
    }
  }

  // ------------------------------------------------------------ from the deadline to the submission

  /** Round `e.round` of a request, submitted from index `from` on, for a clock sampled at `now`. */
  ghost predicate SubmittedFor(log: seq<Submission>, from: nat, e: Entry, now: nat) {
    exists j :: from <= j < |log| && log[j] == Submission(e.timer, e.round, e.expire, now, log[j].at)
  }

  lemma SubmittedStays(log: seq<Submission>, log': seq<Submission>, from: nat, e: Entry, now: nat)
    requires SubmittedFor(log, from, e, now) && log <= log'
    ensures SubmittedFor(log', from, e, now)
  {
    var j :| from <= j < |log| && log[j] == Submission(e.timer, e.round, e.expire, now, log[j].at);
    assert log'[j] == log[j];
  }

  lemma SubmitsHeld(s: State, e: Entry, now: nat)
    requires s.pc == Due(e, now)
    ensures SubmittedFor(Apply(s, Submit).log, |s.log|, e, now)
  {
    var t := Apply(s, Submit);
    assert t.log[|s.log|] == Submission(e.timer, e.round, e.expire, now, s.clock);
  }

  lemma OthersLeaveHand(s: State, step: Step)
    requires Enabled(s, step) && s.pc.Due? && !OfThread(step)
    ensures Apply(s, step).pc == s.pc && |s.log| <= |Apply(s, step).log|
  {}

  lemma {:induction false} HeldUntilSubmit(s: State, run: seq<Step>, t: State, e: Entry, now: nat, from: nat)
    requires Leads(s, run, t) && s.pc == Due(e, now) && from <= |s.log| && ThreadSteps(run) > 0
    ensures SubmittedFor(t.log, from, e, now)
    decreases |run|
  {
    if OfThread(run[0]) {
      assert run[0] == Submit;
      SubmitsHeld(s, e, now);
      RunGrows(Apply(s, Submit), run[1..], t);
      SubmittedStays(Apply(s, Submit).log, t.log, |s.log|, e, now);
    } else {
      OthersLeaveHand(s, run[0]);
      HeldUntilSubmit(Apply(s, run[0]), run[1..], t, e, now, from);
    }
  }

  /** A popped entry is submitted in the thread's next step, for the clock at which it was popped. */
  lemma PoppedIsSubmitted(s: State, e: Entry, run: seq<Step>, t: State)
    requires Enabled(s, Pop(e)) && Leads(Apply(s, Pop(e)), run, t) && ThreadSteps(run) > 0
    ensures SubmittedFor(t.log, |s.log|, e, s.clock)
  {
    HeldUntilSubmit(Apply(s, Pop(e)), run, t, e, s.clock, |s.log|);
  }

  lemma {:induction false} OverdueSubmitted(s: State, run: seq<Step>, t: State, f: Entry) returns (now: nat)
    requires Inv(s) && Overdue(s, f) && Leads(s, run, t) && StopTimer !in run
    requires ThreadSteps(run) > StepsBefore(s, f) + 1
    ensures now >= s.clock && SubmittedFor(t.log, |s.log|, f, now)
    decreases |run|
  {
    var u := Apply(s, run[0]);
    assert run[0] in run;
    InvStep(s, run[0]);
    StepGrows(s, run[0]);
    if run[0] == Pop(f) {
      now := s.clock;
      PoppedIsSubmitted(s, f, run[1..], t);
    } else {
      if OfThread(run[0]) {
        ThreadComesNearer(s, run[0], f);
      } else {
        OthersDoNotDelay(s, run[0], f);
      }
      now := OverdueSubmitted(u, run[1..], t, f);
      FromEarlier(t.log, |s.log|, |u.log|, f, now);
    }
  }

  lemma FromEarlier(log: seq<Submission>, from: nat, later: nat, e: Entry, now: nat)
    requires SubmittedFor(log, later, e, now) && from <= later
    ensures SubmittedFor(log, from, e, now)
  {}

  /** A due entry is submitted within a bounded number of the thread's own steps, for a clock read after it was due. */
  lemma DueIsSubmitted(s: State, run: seq<Step>, t: State, f: Entry) returns (now: nat)
    requires Reachable(s) && Overdue(s, f) && Leads(s, run, t) && StopTimer !in run
    requires ThreadSteps(run) > StepsBefore(s, f) + 1
    ensures now >= f.expire && SubmittedFor(t.log, |s.log|, f, now)
  {
    InvReachable(s);
    now := OverdueSubmitted(s, run, t, f);
  }

  // ------------------------------------------------------------ idling

  predicate WakesUp(step: Step) { step.Notify? || step.Spurious? || step.StopTimer? }

  function WakeUps(run: seq<Step>): nat {
    if run == [] then 0 else (if WakesUp(run[0]) then 1 else 0) + WakeUps(run[1..])
  }

  /** Steps of the thread before it blocks on an empty queue. */
  function ToBlock(pc: Pc): nat {
    match pc
    case Due(_, _) => 3 case Top => 2 case Looking => 1 case Waiting(notified) => if notified then 1 else 0
    case Rearming(_, _) => 0 case Exited => 0
  }

  lemma IdleStep(s: State, step: Step)
    requires Enabled(s, step) && s.queue == {} && !step.Push? && !step.Rearm?
    ensures Apply(s, step).queue == {}
    ensures (if OfThread(step) then 1 else 0) + ToBlock(Apply(s, step).pc)
            <= ToBlock(s.pc) + if WakesUp(step) then 1 else 0
  {
    match step
    case Tick(_) =>
    case Schedule(_, _) =>
    case Test =>
    case Park =>
    case Notify =>
    case Spurious =>
    case Wake =>
    case Submit =>
    case StopTimer =>
    case Clear =>
  }

  /**
   While nothing comes to the queue the thread sleeps: after the first three steps, at most one for
   each time it is woken.
   */
  lemma {:induction false} SleepsWhileEmpty(s: State, run: seq<Step>, t: State)
    requires Leads(s, run, t) && s.queue == {}
    requires forall i :: 0 <= i < |run| ==> !run[i].Push? && !run[i].Rearm?
    ensures ThreadSteps(run) + ToBlock(t.pc) <= WakeUps(run) + ToBlock(s.pc) <= WakeUps(run) + 3
    decreases |run|
  {
    if run != [] {
      IdleStep(s, run[0]);
      SleepsWhileEmpty(Apply(s, run[0]), run[1..], t);
    }
  }

  ghost predicate NothingDue(s: State) {
    s.queue != {} && forall e :: e in s.queue ==> s.clock < e.expire
  }

  function Rounds(n: nat): seq<Step> {
    if n == 0 then [] else [NotDue, Test] + Rounds(n - 1)
  }

  /**
   With an entry in the queue it does not: the predicate given to `wait_for` holds at once, so that
   the thread goes around as often as it likes without the clock moving or anybody waking it.
   */
  lemma {:induction false} SpinsUntilDue(s: State, n: nat)
    requires s.pc.Looking? && s.running && NothingDue(s)
    ensures Leads(s, Rounds(n), s) && ThreadSteps(Rounds(n)) == 2 * n && WakeUps(Rounds(n)) == 0
  {
    if n > 0 {
      SpinsUntilDue(s, n - 1);
      OneRound(s, Rounds(n - 1));
    }
  }

  lemma OneRound(s: State, rest: seq<Step>)
    requires s.pc.Looking? && s.running && NothingDue(s) && Leads(s, rest, s)
    ensures Leads(s, [NotDue, Test] + rest, s)
    ensures ThreadSteps([NotDue, Test] + rest) == 2 + ThreadSteps(rest)
    ensures WakeUps([NotDue, Test] + rest) == WakeUps(rest)
  {
    var run := [NotDue, Test] + rest;
    assert run[1..] == [Test] + rest && run[1..][1..] == rest;
    assert Apply(Apply(s, NotDue), Test) == s;
  }

  // ------------------------------------------------------------ stopping

  /** Steps of the thread before it is out of its loop, once the flag is cleared. */
  function Left(pc: Pc): nat {
    match pc
    case Looking => 4 case Due(_, _) => 3 case Rearming(_, _) => 2 case Top => 1 case Waiting(_) => 1 case Exited => 0
  }

  lemma StoppedStep(s: State, step: Step)
    requires Enabled(s, step) && !s.running
    ensures var t := Apply(s, step);
            !t.running && (if OfThread(step) then Left(t.pc) < Left(s.pc) else Left(t.pc) == Left(s.pc))
  {
    match step
    case Tick(_) =>
    case Schedule(_, _) =>
    case Push(_) =>
    case Test =>
    case Park =>
    case Notify =>
    case Spurious =>
    case Wake =>
    case NotDue =>
    case Pop(_) =>
    case Submit =>
    case Rearm =>
    case StopTimer =>
    case Clear =>
  }

  lemma {:induction false} StoppedRun(s: State, run: seq<Step>, t: State)
    requires Leads(s, run, t) && !s.running
    ensures !t.running && ThreadSteps(run) + Left(t.pc) <= Left(s.pc)
    decreases |run|
  {
    if run != [] {
      StoppedStep(s, run[0]);
      StoppedRun(Apply(s, run[0]), run[1..], t);
    }
  }

  /**
   After Stop has cleared the flag the thread takes at most four more steps, whatever the others do,
   and as long as it has not exited it can take the next one.
   */
  lemma StopEndsThread(s: State, run: seq<Step>, t: State) returns (next: Step)
    requires Reachable(s) && Leads(Apply(s, StopTimer), run, t)
    ensures ThreadSteps(run) <= 4
    ensures ThreadSteps(run) == 4 ==> t.pc.Exited?
    ensures !t.pc.Exited? ==> Enabled(t, next) && OfThread(next)
  {
    var u := Apply(s, StopTimer);
    ReachableStep(s, StopTimer);
    ReachableOn(u, run, t);
    StoppedRun(u, run, t);
    InvReachable(t);
    next := Test;
    match t.pc
    case Top =>
    case Looking =>
      if t.queue == {} {
        next := Park;
      } else {
        var e := LeastExists(t.queue);
        next := if e.expire <= t.clock then Pop(e) else NotDue;
      }
    case Waiting(_) => next := Wake;
    case Due(_, _) => next := Submit;
    case Rearming(_, _) => next := Rearm;
    case Exited =>
  }

  lemma DroppedStep(s: State, step: Step, timer: nat)
    requires Inv(s) && Enabled(s, step) && timer in s.dropped
    ensures Times(Apply(s, step).log, timer) == Times(s.log, timer)
  {
    var t := Apply(s, step);
    match step
    case Schedule(delay, _) =>
      if delay <= 0 {
        TimesMore(s.log, t.log[|s.log|], timer);
      }
    case Submit =>
      assert At(s, Held, s.pc.entry);
      TimesMore(s.log, t.log[|s.log|], timer);
    case _ =>
      StepKeepsLog(s, step);
  }

  lemma StepKeepsLog(s: State, step: Step)
    requires Enabled(s, step) && !step.Schedule? && !step.Submit?
    ensures Apply(s, step).log == s.log
  {}

  lemma {:induction false} DroppedRun(s: State, run: seq<Step>, t: State, timer: nat)
    requires Inv(s) && Leads(s, run, t) && timer in s.dropped
    ensures Times(t.log, timer) == Times(s.log, timer)
    decreases |run|
  {
    if run != [] {
      DroppedStep(s, run[0], timer);
      StepGrows(s, run[0]);
      InvStep(s, run[0]);
      DroppedRun(Apply(s, run[0]), run[1..], t, timer);
    }
  }

  /** What was in the queue when Stop emptied it is not submitted any more. */
  lemma ClearedForGood(s: State, e: Entry, run: seq<Step>, t: State)
    requires Reachable(s) && Enabled(s, Clear) && e in s.queue && Leads(Apply(s, Clear), run, t)
    ensures Times(t.log, e.timer) == Times(s.log, e.timer)
  {
    InvReachable(s);
    InvStep(s, Clear);
    DroppedRun(Apply(s, Clear), run, t, e.timer);
  }
}
