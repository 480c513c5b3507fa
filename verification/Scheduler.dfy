/** The guarantees of the thread pool over all of its runs. */
module Scheduler {

  import opened SchedulerModel
  import opened SchedulerInvariant

  // ------------------------------------------------------------------- theorems

  /**
   No lost work: in every interleaving, with Pause, Resume and Stop wherever they fall, work that is
   queued while the pool is not paused has a notification on its way or a worker that is neither
   blocked nor gone, unless all workers have exited or a race was lost.
   */
  lemma NoLostWorkUnlessRaced(s: State)
    requires Reachable(s) && !s.paused && s.queue != [] && !s.raced
    ensures AllExited(s.workers) || s.notifies > 0 || s.broadcasts > 0 || SomeLively(s.workers)
  {
    InvReachable(s);
  }

  /** A pool with two workers or more never loses work, however it is paused and resumed. */
  lemma NoLostWorkWithTwoWorkers(s: State)
    requires Reachable(s) && !s.paused && s.queue != [] && |s.workers| >= 2
    ensures AllExited(s.workers) || s.notifies > 0 || s.broadcasts > 0 || SomeLively(s.workers)
  {
    InvReachable(s);
    NoLostWorkUnlessRaced(s);
  }

  /** Nor does any pool that was never paused. */
  lemma NoLostWork(s: State)
    requires Reachable(s) && !s.everPaused && s.queue != []
    ensures AllExited(s.workers) || s.notifies > 0 || SomeLively(s.workers)
  {
    InvReachable(s);
  }

  /** Every worker is blocked, gone, or going to block without another look at the queue. */
  predicate Doomed(ws: seq<Pc>) {
    forall i :: 0 <= i < |ws| ==> ws[i].Parked? || ws[i].Parking? || ws[i].Exited?
  }

  /**
   Exactly when work is lost: with work queued, the pool not paused, no notification to come and
   somebody still there, nobody will look at the queue again if and only if a race was lost.
   */
  lemma LostIffRaced(s: State)
    requires Reachable(s) && !s.paused && s.queue != [] && !AllExited(s.workers)
    requires s.notifies == 0 && s.broadcasts == 0
    ensures Doomed(s.workers) <==> s.raced
  {
    InvReachable(s);
  }

  lemma OnlyStepLeft(s: State, e: Step)
    requires Inv(s) && s.raced && s.notifies == 0 && s.broadcasts == 0 && Own(e) && Enabled(s, e)
    ensures e == Work(0) && s.workers == [Parking]
    ensures var t := Apply(s, e);
            && t.workers == [Parked] && t.notifies == 0 && t.broadcasts == 0
            && t.queue == s.queue && t.started == s.started
  {
    assert s.workers == [s.workers[0]];
  }

  lemma NoStepLeft(s: State, e: Step)
    requires s.workers == [Parked] && s.notifies == 0 && s.broadcasts == 0 && Own(e)
    ensures !Enabled(s, e)
  {}

  /** And a lost race is lost for good: the worker goes to sleep, and no step of the pool is left. */
  lemma LostForGood(s: State, run: seq<Step>, t: State)
    requires Reachable(s) && s.raced && s.notifies == 0 && s.broadcasts == 0
    requires Leads(s, run, t) && forall k :: 0 <= k < |run| ==> Own(run[k])
    ensures t.queue == s.queue && t.started == s.started && |run| <= 1
  {
    InvReachable(s);
    if run != [] {
      OnlyStepLeft(s, run[0]);
      if |run| > 1 {
        assert Own(run[1]) && run[1..][0] == run[1];
        NoStepLeft(Apply(s, run[0]), run[1]);
      }
    }
  }

  /** A notify_all that finds the only worker about to sleep, and no other notification: nothing starts any more. */
  lemma BroadcastLoses(s: State, run: seq<Step>, t: State)
    requires Reachable(s) && s.queue != [] && s.workers == [Parking] && s.notifies == 0 && s.broadcasts == 1
    requires Leads(Apply(s, Broadcast), run, t) && forall k :: 0 <= k < |run| ==> Own(run[k])
    ensures t.queue == s.queue && t.started == s.started && |run| <= 1
  {
    var lost := Extended(s, Broadcast);
    LostForGood(lost, run, t);
  }

  /** While work can be had, the pool itself can always move. */
  lemma NeverStuck(s: State)
    requires Reachable(s) && !s.paused && !s.raced && s.queue != [] && !AllExited(s.workers)
    ensures exists e :: Own(e) && Enabled(s, e)
  {
    NoLostWorkUnlessRaced(s);
    InvReachable(s);
    if SomeLively(s.workers) {
      var j :| 0 <= j < |s.workers| && Lively(s.workers[j]);
      var e := OwnStep(s, j);
    } else if s.notifies > 0 {
      var k :| 0 <= k < |s.workers| && !s.workers[k].Exited?;
      assert CanWake(s.workers, k);
      assert Enabled(s, Notify(k));
    } else {
      assert Own(Broadcast) && Enabled(s, Broadcast);
    }
  }

  lemma OwnStep(s: State, j: nat) returns (e: Step)
    requires Inv(s) && j < |s.workers| && Lively(s.workers[j])
    ensures Own(e) && Enabled(s, e)
  {
    var pc := s.workers[j];
    if pc.Running? {
      e := Finish(j, true);
    } else if pc.Decremented? {
      var w: nat := if SomeParked(s.workers) then var w: nat :| w < |s.workers| && s.workers[w].Parked?; w else 0;
      e := NotifyIdle(j, w);
    } else if pc.Top? && s.lock.HeldBy? {
      // the lock is held by another worker, which can go on
      assert Knows(s, s.lock.worker);
      e := Work(s.lock.worker);
    } else {
      assert Knows(s, j);
      e := Work(j);
    }
  }

  // ------------------------------------------------------------------- progress

  /** The pool's own steps and the notifications under way, as opposed to calls and spurious wake-ups. */
  predicate Own(e: Step) { e.Work? || e.Finish? || e.NotifyIdle? || e.Notify? || e.Broadcast? }

  /** How far a worker is from either taking a task or going to sleep. */
  function Rank(pc: Pc): nat {
    match pc
    case Running(_) => 18 case Finished => 17 case Decremented => 16
    case Top => 8 case Testing => 7 case TestingCap => 6
    case Awake => 5 case Admitted => 4 case Claiming => 3
    case Parking => 2 case Parked => 1 case Exited => 0
  }

  function Ranks(ws: seq<Pc>): nat {
    if ws == [] then 0 else Rank(ws[0]) + Ranks(ws[1..])
  }

  /** What a notify_all can add to the ranks of n workers, and one. */
  function WakeAllCost(n: nat): nat { 7 * n + 1 }

  function Distance(s: State): nat {
    Ranks(s.workers) + 8 * s.notifies + WakeAllCost(|s.workers|) * s.broadcasts
  }

  lemma {:induction false} RanksUpdate(ws: seq<Pc>, i: nat, pc: Pc)
    requires i < |ws|
    ensures Ranks(ws[i := pc]) + Rank(ws[i]) == Ranks(ws) + Rank(pc)
  {
    if i == 0 {
      assert ws[0 := pc][1..] == ws[1..];
    } else {
      RanksUpdate(ws[1..], i - 1, pc);
      assert ws[i := pc][1..] == ws[1..][i - 1 := pc];
    }
  }

  lemma RanksWake(ws: seq<Pc>, w: nat)
    ensures Ranks(Wake(ws, w)) <= Ranks(ws) + 7
  {
    if w < |ws| && ws[w].Parked? {
      RanksUpdate(ws, w, Top);
    }
  }

  lemma {:induction false} RanksWakeAll(ws: seq<Pc>)
    ensures Ranks(WakeAll(ws)) <= Ranks(ws) + 7 * |ws|
  {
    if ws != [] {
      RanksWakeAll(ws[1..]);
      assert WakeAll(ws)[1..] == WakeAll(ws[1..]);
    }
  }

  lemma OneLessTimes(c: nat, b: nat)
    requires b > 0
    ensures c * (b - 1) == c * b - c
  {}

  /** Work is queued and may be taken. */
  predicate Working(s: State) { !s.paused && !s.stop && s.queue != [] }

  /** A task was started, or the distance to that became shorter. */
  predicate Nearer(s: State, t: State) {
    |t.started| > |s.started|
    || (Distance(t) < Distance(s) && t.started == s.started && Working(t))
  }

  lemma ProgressWork(s: State, i: nat)
    requires Inv(s) && Working(s) && Enabled(s, Work(i))
    ensures Nearer(s, WorkStep(s, i))
  {
    assert Knows(s, i);
    var pc := NextPc(s, i);
    assert s.workers[i].Claiming? || Rank(pc) < Rank(s.workers[i]);
    RanksUpdate(s.workers, i, pc);
  }

  lemma ProgressFinish(s: State, i: nat, ok: bool)
    requires Working(s) && Enabled(s, Finish(i, ok))
    ensures Nearer(s, Apply(s, Finish(i, ok)))
  {
    RanksUpdate(s.workers, i, Finished);
  }

  lemma ProgressNotify(s: State, w: nat)
    requires Working(s) && Enabled(s, Notify(w))
    ensures Nearer(s, Apply(s, Notify(w)))
  {
    RanksWake(s.workers, w);
  }

  lemma ProgressIdle(s: State, i: nat, w: nat)
    requires Working(s) && Enabled(s, NotifyIdle(i, w))
    ensures Nearer(s, Apply(s, NotifyIdle(i, w)))
  {
    RanksWake(s.workers, w);
    RanksUpdate(Wake(s.workers, w), i, Top);
  }

  lemma ProgressBroadcast(s: State)
    requires Working(s) && Enabled(s, Broadcast)
    ensures Nearer(s, Apply(s, Broadcast))
  {
    RanksWakeAll(s.workers);
    OneLessTimes(WakeAllCost(|s.workers|), s.broadcasts);
  }

  /** With work to be had, an own step takes a task or shortens the distance to one. */
  lemma ProgressStep(s: State, e: Step)
    requires Inv(s) && Working(s) && Own(e) && Enabled(s, e)
    ensures Nearer(s, Apply(s, e))
  {
    match e
    case Work(i) => ProgressWork(s, i);
    case Finish(i, ok) => ProgressFinish(s, i, ok);
    case Notify(w) => ProgressNotify(s, w);
    case NotifyIdle(i, w) => ProgressIdle(s, i, w);
    case Broadcast => ProgressBroadcast(s);
  }

  lemma {:induction false} ProgressRun(s: State, run: seq<Step>, t: State)
    requires Inv(s) && Working(s)
    requires Leads(s, run, t) && forall k :: 0 <= k < |run| ==> Own(run[k])
    ensures |t.started| > |s.started| || |run| + Distance(t) <= Distance(s)
    decreases |run|
  {
    if run != [] {
      var next := Apply(s, run[0]);
      ProgressStep(s, run[0]);
      InvStep(s, run[0]);
      if |next.started| > |s.started| {
        StartedGrows(next, run[1..], t);
      } else {
        ProgressRun(next, run[1..], t);
      }
    }
  }

  /**
   Bounded progress: while work is queued and the pool neither paused nor stopped, every sequence of
   the pool's own steps longer than Distance starts a task, whichever steps the threads' scheduling
   picks. Together with NeverStuck, queued work is always taken up.
   */
  lemma BoundedProgress(s: State, run: seq<Step>, t: State)
    requires Reachable(s) && Working(s)
    requires Leads(s, run, t) && forall k :: 0 <= k < |run| ==> Own(run[k])
    ensures |run| > Distance(s) ==> |t.started| > |s.started|
  {
    InvReachable(s);
    ProgressRun(s, run, t);
  }

  lemma StartedStep(s: State, e: Step)
    requires Enabled(s, e)
    ensures |s.started| <= |Apply(s, e).started|
  {
    match e
    case Work(_) =>
    case Push(_) =>
    case Notify(_) =>
    case Spurious(_) =>
    case Finish(_, _) =>
    case NotifyIdle(_, _) =>
    case Pause =>
    case Resume =>
    case Broadcast =>
    case RequestStop =>
    case ClearQueue =>
  }

  lemma {:induction false} StartedGrows(s: State, run: seq<Step>, t: State)
    requires Leads(s, run, t)
    ensures |s.started| <= |t.started|
    decreases |run|
  {
    if run != [] {
      StartedStep(s, run[0]);
      StartedGrows(Apply(s, run[0]), run[1..], t);
    }
  }

  /**
   FIFO and conservation, before Stop empties the queue: tasks are started in the order in which
   they were submitted, each exactly once; every started task is running, completed or failed; the
   active count is the number of workers between its increment and its decrement and never exceeds
   the cap; and a worker about to take a task finds one.
   */
  lemma FifoConservationAndCap(s: State)
    requires Reachable(s) && !s.cleared
    ensures s.started + s.queue == s.submitted
    ensures Count(s.workers, IsRunning) + s.completed + s.failed == |s.started|
    ensures s.active == Count(s.workers, Active)
    ensures s.cap > 0 ==> s.active <= s.cap
    ensures forall i :: 0 <= i < |s.workers| && s.workers[i].Claiming? ==> s.queue != []
  {
    InvReachable(s);
    forall i | 0 <= i < |s.workers| && s.workers[i].Claiming?
      ensures s.queue != []
    {
      assert Knows(s, i);
    }
  }

  /**
   Stop drains: once every worker has exited, exactly the tasks submitted before the last exit have
   been started, in order; before Stop resets the counters each of them is counted as completed or
   failed; and whatever Stop throws away was submitted after that exit.
   */
  lemma StopDrains(s: State)
    requires Reachable(s) && AllExited(s.workers)
    ensures s.exitMark <= |s.submitted|
    ensures s.started == s.submitted[..s.exitMark]
    ensures s.discarded + s.queue == s.submitted[s.exitMark..]
    ensures !s.cleared ==> s.completed + s.failed == s.exitMark
  {
    InvReachable(s);
    CountZero(s.workers, IsRunning);
  }

  // ----------------------------------------------------------------------- pause

  /** One more task can be taken if the lock holder is past its last look at `paused`. */
  function Credit(s: State): nat {
    if s.lock.HeldBy? && s.lock.worker < |s.workers|
       && (s.workers[s.lock.worker].Admitted? || s.workers[s.lock.worker].Claiming?)
    then 1 else 0
  }

  lemma CreditWork(s: State, i: nat)
    requires Exclusive(s) && s.paused && Enabled(s, Work(i))
    ensures |WorkStep(s, i).started| + Credit(WorkStep(s, i)) <= |s.started| + Credit(s)
  {
    assert Holds(s.workers[i]) ==> s.lock == HeldBy(i);
  }

  lemma CreditStep(s: State, e: Step)
    requires Exclusive(s) && s.paused && Enabled(s, e) && !e.Resume? && !e.RequestStop?
    ensures Apply(s, e).paused
    ensures |Apply(s, e).started| + Credit(Apply(s, e)) <= |s.started| + Credit(s)
  {
    if e.Work? {
      CreditWork(s, e.worker);
    } else {
      OtherSteps(s, e);
    }
  }

  lemma {:induction false} CreditRun(s: State, run: seq<Step>, t: State)
    requires Inv(s) && s.paused && Leads(s, run, t)
    requires forall k :: 0 <= k < |run| ==> !run[k].Resume? && !run[k].RequestStop?
    ensures |t.started| + Credit(t) <= |s.started| + Credit(s)
    decreases |run|
  {
    if run != [] {
      CreditStep(s, run[0]);
      InvStep(s, run[0]);
      CreditRun(Apply(s, run[0]), run[1..], t);
    }
  }

  /** From the moment Pause has set its flag until Resume or Stop, at most one more task is taken. */
  lemma PauseBound(s: State, run: seq<Step>, t: State)
    requires Reachable(s) && s.paused && Leads(s, run, t)
    requires forall k :: 0 <= k < |run| ==> !run[k].Resume? && !run[k].RequestStop?
    ensures |t.started| <= |s.started| + 1
  {
    InvReachable(s);
    CreditRun(s, run, t);
  }

  // -------------------------------------------------- a race that is lost

  lemma {:induction false} LeadsSnoc(s: State, run: seq<Step>, t: State, e: Step)
    requires Leads(s, run, t) && Enabled(t, e)
    ensures Leads(s, run + [e], Apply(t, e))
    decreases |run|
  {
    if run == [] {
      assert [e][1..] == [];
    } else {
      LeadsSnoc(Apply(s, run[0]), run[1..], t, e);
      assert (run + [e])[1..] == run[1..] + [e];
    }
  }

  lemma Extended(s: State, e: Step) returns (t: State)
    requires Reachable(s) && Enabled(s, e)
    ensures t == Apply(s, e) && Reachable(t)
  {
    t := Apply(s, e);
    var cap: nat, n: nat, run: seq<Step> :| n > 0 && Leads(Initial(cap, n), run, s);
    LeadsSnoc(Initial(cap, n), run, s, e);
  }

  /** A pool of one worker, uncapped, with one task queued and Stop not requested. */
  ghost predicate Solo(s: State, pc: Pc, paused: bool, notifies: nat) {
    && Reachable(s) && s.workers == [pc] && s.lock == (if Holds(pc) then HeldBy(0) else Free)
    && s.queue == [7] && !s.stop && s.paused == paused && s.notifies == notifies && s.broadcasts == 0
    && (pc.Parking? && !paused ==> s.raced) && (pc.Parked? && !paused ==> s.raced)
  }

  lemma SoloPaused() returns (s: State)
    ensures Solo(s, Top, true, 1)
  {
    s := Initial(0, 1);
    assert Leads(s, [], s);
    s := Extended(s, Push(7));
    s := Extended(s, Pause);
    assert s.workers == [Top];
  }

  lemma SoloWork(s: State, pc: Pc, paused: bool, notifies: nat) returns (t: State)
    requires Solo(s, pc, paused, notifies) && (pc.Top? || pc.Parking? || (pc.Testing? && paused))
    ensures Solo(t, if pc.Top? then Testing else if pc.Testing? then Parking else Parked, paused, notifies)
  {
    t := Extended(s, Work(0));
  }

  lemma SoloResume(s: State) returns (t: State)
    requires Solo(s, Parking, true, 1)
    ensures Solo(t, Parking, false, 0)
  {
    t := Extended(s, Resume);
    t := Extended(t, Broadcast);
    assert t.workers == [Parking];
    t := Extended(t, Notify(0));
  }

  /**
   Resume changes its flag without the lock, so its notification can fall between a worker's test
   and its going to sleep. A single worker is then blocked for good with a task queued, nothing
   paused and no notification to come.
   */
  lemma ResumeCanLoseWork() returns (s: State)
    ensures Reachable(s) && !s.paused && !s.stop && s.queue != []
    ensures s.notifies == 0 && s.broadcasts == 0 && s.raced
    ensures forall i :: 0 <= i < |s.workers| ==> s.workers[i].Parked?
  {
    s := SoloPaused();
    s := SoloWork(s, Top, true, 1);
    s := SoloWork(s, Testing, true, 1);
    s := SoloResume(s);
    s := SoloWork(s, Parking, false, 0);
  }
}
