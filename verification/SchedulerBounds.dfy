/**
 How many workers of the thread pool look for work while there is some: enough
 to use the cap, short of at most one that a Resume may have missed.
 */
module SchedulerBounds {

  import opened SchedulerModel
  import opened SchedulerInvariant
  import opened Scheduler

  // ------------------------------------------------------------------ using the cap

  /** On the way to the queue: neither blocked or about to block, nor busy with a task, nor gone. */
  predicate Looking(pc: Pc) {
    pc.Top? || pc.Testing? || pc.TestingCap? || pc.Awake? || pc.Admitted? || pc.Claiming? || pc.Decremented?
  }

  predicate Idle(pc: Pc) { pc.Parked? || pc.Parking? || pc.Exited? }

  predicate SomeIdle(ws: seq<Pc>) { exists i :: 0 <= i < |ws| && Idle(ws[i]) }

  /** How many more tasks could be running: as many as are queued, as far as the cap allows. */
  function Room(s: State): int {
    if s.cap == 0 || |s.queue| <= s.cap - s.active then |s.queue| else s.cap - s.active
  }

  /** A worker that goes to sleep over a queued task does so because others fill the cap. */
  ghost predicate CapIsBelow(s: State) {
    forall i :: 0 <= i < |s.workers| && s.workers[i].Parking? && s.queue != [] ==> 0 < s.cap < |s.workers|
  }

  ghost predicate Manned(s: State) {
    !s.everPaused && !s.stop ==>
      CapIsBelow(s) && (SomeIdle(s.workers) ==> s.notifies + Count(s.workers, Looking) >= Room(s))
  }

  /** Every worker looks for work, has a task, or is idle. */
  lemma {:induction false} AllAccountedFor(ws: seq<Pc>)
    ensures Count(ws, Looking) + Count(ws, Active) + Count(ws, Idle) == |ws|
  {
    if ws != [] {
      AllAccountedFor(ws[1..]);
    }
  }

  lemma {:induction false} CountAtMost(ws: seq<Pc>, i: nat, p: Pc -> bool)
    requires i < |ws| && forall j :: 0 <= j < |ws| && j != i ==> !p(ws[j])
    ensures Count(ws, p) <= 1
  {
    if i == 0 {
      CountZero(ws[1..], p);
    } else {
      assert !p(ws[0]);
      CountAtMost(ws[1..], i - 1, p);
    }
  }

  lemma MannedPush(s: State, task: Task)
    requires Inv(s) && Manned(s) && Enabled(s, Push(task))
    ensures Manned(Apply(s, Push(task)))
  {
    assert forall i :: 0 <= i < |s.workers| ==> !Holds(s.workers[i]);
  }

  lemma LookingWake(ws: seq<Pc>, w: nat)
    ensures Count(Wake(ws, w), Looking) == Count(ws, Looking) + if w < |ws| && ws[w].Parked? then 1 else 0
  {
    if w < |ws| && ws[w].Parked? {
      CountUpdate(ws, w, Top, Looking);
    }
  }

  lemma {:induction false} LookingWakeAll(ws: seq<Pc>)
    ensures Count(WakeAll(ws), Looking) >= Count(ws, Looking)
  {
    if ws != [] {
      LookingWakeAll(ws[1..]);
      assert WakeAll(ws)[1..] == WakeAll(ws[1..]);
    }
  }

  /** A notification that wakes nobody was not needed: everyone but one is up, and the cap is below that. */
  lemma NotifyWasted(s: State)
    requires Inv(s) && CapIsBelow(s) && !s.stop && !SomeParked(s.workers) && SomeIdle(s.workers)
    ensures Count(s.workers, Looking) >= Room(s)
  {
    var i :| 0 <= i < |s.workers| && Idle(s.workers[i]);
    assert Knows(s, i) && s.workers[i].Parking?;
    if s.queue != [] {
      forall j | 0 <= j < |s.workers| && j != i
        ensures !Idle(s.workers[j])
      {
        assert Knows(s, j) && s.lock == HeldBy(i);
      }
      CountAtMost(s.workers, i, Idle);
      AllAccountedFor(s.workers);
      NotCleared(s, i);
    }
  }

  lemma NotCleared(s: State, i: nat)
    requires Inv(s) && i < |s.workers| && !s.workers[i].Exited?
    ensures !s.cleared && s.active == Count(s.workers, Active)
  {}

  lemma IdleNudged(ws: seq<Pc>, ws': seq<Pc>)
    requires AllNudged(ws, ws')
    ensures SomeIdle(ws') ==> SomeIdle(ws)
    ensures forall i :: 0 <= i < |ws| && ws'[i].Parking? ==> ws[i].Parking?
  {
    if SomeIdle(ws') {
      var i :| 0 <= i < |ws'| && Idle(ws'[i]);
      assert Nudged(ws[i], ws'[i]) && Idle(ws[i]);
    }
  }

  lemma MannedNotify(s: State, w: nat)
    requires Inv(s) && Manned(s) && Enabled(s, Notify(w))
    ensures Manned(Apply(s, Notify(w)))
  {
    NudgeWake(s.workers, w);
    IdleNudged(s.workers, Wake(s.workers, w));
    LookingWake(s.workers, w);
    if !SomeParked(s.workers) && SomeIdle(s.workers) && !s.everPaused && !s.stop {
      NotifyWasted(s);
    }
  }

  /** Steps that only wake workers or finish tasks. */
  lemma MannedAlike(s: State, t: State)
    requires Manned(s) && Alike(s, t) && t.queue == s.queue && t.notifies >= s.notifies
    requires s.everPaused ==> t.everPaused
    requires Count(t.workers, Looking) >= Count(s.workers, Looking)
    ensures Manned(t)
  {
    IdleNudged(s.workers, t.workers);
  }

  /** Going to sleep: there is nothing to take, or nothing may be taken. */
  lemma NoRoomToSleep(s: State, i: nat)
    requires Inv(s) && Enabled(s, Work(i)) && !s.paused && !s.stop && NextPc(s, i).Parking?
    ensures Room(s) <= 0 && (s.queue != [] ==> 0 < s.cap < |s.workers|)
  {
    if s.queue != [] {
      NotCleared(s, i);
      AllAccountedFor(s.workers);
      SomeCounted(s.workers, i, Looking);
    }
  }

  lemma MannedSleep(s: State, i: nat)
    requires Inv(s) && Enabled(s, Work(i)) && !s.paused && !s.stop && NextPc(s, i).Parking?
    ensures Manned(WorkStep(s, i))
  {
    NoRoomToSleep(s, i);
    assert Room(WorkStep(s, i)) == Room(s);
  }

  lemma {:induction false} SomeCounted(ws: seq<Pc>, i: nat, p: Pc -> bool)
    requires i < |ws| && p(ws[i])
    ensures Count(ws, p) >= 1
  {
    if i > 0 {
      SomeCounted(ws[1..], i - 1, p);
    }
  }

  lemma MannedWork(s: State, i: nat)
    requires Inv(s) && Manned(s) && Enabled(s, Work(i))
    ensures Manned(WorkStep(s, i))
  {
    if !s.everPaused && !s.stop {
      if NextPc(s, i).Parking? {
        MannedSleep(s, i);
      } else {
        MannedOther(s, i);
      }
    }
  }

  /** Any other step of a worker takes no more from those who look than from what can be taken. */
  lemma RoomKept(s: State, i: nat)
    requires Inv(s) && Enabled(s, Work(i)) && !s.paused && !s.stop && !NextPc(s, i).Parking?
    ensures var t := WorkStep(s, i);
            Count(t.workers, Looking) - Room(t) >= Count(s.workers, Looking) - Room(s)
  {
    CountUpdate(s.workers, i, NextPc(s, i), Looking);
    assert Knows(s, i);
    match s.workers[i]
    case Top => case Testing => case TestingCap => case Parking => case Awake => case Admitted =>
    case Claiming => case Finished =>
  }

  lemma IdleKept(s: State, i: nat)
    requires Inv(s) && Enabled(s, Work(i)) && !s.stop && !NextPc(s, i).Parking?
    ensures var t := WorkStep(s, i);
            && (SomeIdle(t.workers) ==> SomeIdle(s.workers))
            && (forall j :: 0 <= j < |t.workers| && t.workers[j].Parking? ==> s.workers[j].Parking?)
            && (t.queue != [] ==> s.queue != [])
  {
    var t := WorkStep(s, i);
    assert Knows(s, i);
    if SomeIdle(t.workers) {
      var j :| 0 <= j < |t.workers| && Idle(t.workers[j]);
      assert Idle(s.workers[j]);
    }
  }

  lemma MannedOther(s: State, i: nat)
    requires Inv(s) && Manned(s) && Enabled(s, Work(i)) && !s.everPaused && !s.stop
    requires !NextPc(s, i).Parking?
    ensures Manned(WorkStep(s, i))
  {
    RoomKept(s, i);
    IdleKept(s, i);
  }

  lemma MannedStep(s: State, e: Step)
    requires Inv(s) && Manned(s) && Enabled(s, e)
    ensures Manned(Apply(s, e))
  {
    match e
    case Work(i) => MannedWork(s, i);
    case Push(task) => MannedPush(s, task);
    case Notify(w) => MannedNotify(s, w);
    case Spurious(w) => MannedNudge(s, e);
    case Finish(i, ok) => MannedNudge(s, e);
    case NotifyIdle(i, w) => MannedNudge(s, e);
    case Pause =>
    case Resume => MannedNudge(s, e);
    case Broadcast => MannedNudge(s, e);
    case RequestStop =>
    case ClearQueue =>
  }

  lemma LookingNudge(s: State, e: Step)
    requires Enabled(s, e) && !e.Work? && !OfStop(e)
    ensures Count(Apply(s, e).workers, Looking) >= Count(s.workers, Looking)
  {
    match e
    case Push(_) =>
    case Notify(w) => LookingWake(s.workers, w);
    case Spurious(w) => CountUpdate(s.workers, w, Top, Looking);
    case Finish(i, _) => CountUpdate(s.workers, i, Finished, Looking);
    case NotifyIdle(i, w) =>
      LookingWake(s.workers, w);
      CountUpdate(Wake(s.workers, w), i, Top, Looking);
    case Pause =>
    case Resume =>
    case Broadcast => LookingWakeAll(s.workers);
  }

  lemma MannedNudge(s: State, e: Step)
    requires Inv(s) && Manned(s) && Enabled(s, e)
    requires e.Spurious? || e.Finish? || e.NotifyIdle? || e.Resume? || e.Broadcast?
    ensures Manned(Apply(s, e))
  {
    AlikeStep(s, e);
    LookingNudge(s, e);
    MannedAlike(s, Apply(s, e));
  }

  lemma {:induction false} MannedRun(s: State, run: seq<Step>, t: State)
    requires Inv(s) && Manned(s) && Leads(s, run, t)
    ensures Manned(t)
    decreases |run|
  {
    if run != [] {
      InvStep(s, run[0]);
      MannedStep(s, run[0]);
      MannedRun(Apply(s, run[0]), run[1..], t);
    }
  }

  /**
   The cap is used: in a pool neither paused nor stopped, while a worker sleeps, notifications under
   way and workers on their way to the queue are at least as many as the tasks that could be taken.
   */
  lemma CapIsUsed(s: State)
    requires Reachable(s) && !s.everPaused && !s.stop && SomeParked(s.workers)
    ensures s.notifies + Count(s.workers, Looking) >= Room(s)
    ensures s.queue != [] && BelowCap(s) && s.notifies == 0 ==>
              exists j :: 0 <= j < |s.workers| && Looking(s.workers[j])
  {
    var cap: nat, n: nat, run: seq<Step> :| n > 0 && Leads(Initial(cap, n), run, s);
    InvInitial(cap, n);
    MannedRun(Initial(cap, n), run, s);
    var i :| 0 <= i < |s.workers| && s.workers[i].Parked?;
    assert Idle(s.workers[i]);
    if s.queue != [] && BelowCap(s) && s.notifies == 0 {
      var j := CountPositive(s.workers, Looking);
    }
  }

  // ------------------------------------------------------------------ with Pause and Resume

  /** Enough workers are up, or only one is not. */
  ghost predicate NearlyManned(s: State) {
    !s.paused && !s.stop && s.broadcasts == 0 ==>
      Count(s.workers, Idle) <= 1 || s.notifies + Count(s.workers, Looking) >= Room(s)
  }

  lemma {:induction false} IdleCountNudged(ws: seq<Pc>, ws': seq<Pc>)
    requires AllNudged(ws, ws')
    ensures Count(ws', Idle) <= Count(ws, Idle)
  {
    if ws != [] {
      assert Nudged(ws[0], ws'[0]);
      IdleCountNudged(ws[1..], ws'[1..]);
    }
  }

  /** With nobody blocked and stop not requested, only the holder of the lock can be going to sleep. */
  lemma OneGoingToSleep(s: State)
    requires Inv(s) && !s.stop && !SomeParked(s.workers)
    ensures Count(s.workers, Idle) <= 1
  {
    if SomeIdle(s.workers) {
      var i :| 0 <= i < |s.workers| && Idle(s.workers[i]);
      assert Knows(s, i) && s.workers[i].Parking?;
      forall j | 0 <= j < |s.workers| && j != i
        ensures !Idle(s.workers[j])
      {
        assert Knows(s, j) && s.lock == HeldBy(i);
      }
      CountAtMost(s.workers, i, Idle);
    } else {
      CountZero(s.workers, Idle);
    }
  }

  lemma NearlyWork(s: State, i: nat)
    requires Inv(s) && NearlyManned(s) && Enabled(s, Work(i))
    ensures NearlyManned(WorkStep(s, i))
  {
    if !s.paused && !s.stop {
      if NextPc(s, i).Parking? {
        NoRoomToSleep(s, i);
        assert Room(WorkStep(s, i)) == Room(s);
      } else {
        RoomKept(s, i);
        assert Knows(s, i);
        CountUpdate(s.workers, i, NextPc(s, i), Idle);
      }
    }
  }

  lemma NearlyNotify(s: State, w: nat)
    requires Inv(s) && NearlyManned(s) && Enabled(s, Notify(w))
    ensures NearlyManned(Apply(s, Notify(w)))
  {
    NudgeWake(s.workers, w);
    IdleCountNudged(s.workers, Wake(s.workers, w));
    LookingWake(s.workers, w);
    if !s.stop && !SomeParked(s.workers) {
      OneGoingToSleep(s);
    }
  }

  lemma NearlyAlike(s: State, t: State)
    requires NearlyManned(s) && Alike(s, t) && t.queue == s.queue && t.notifies == s.notifies
    requires t.paused == s.paused && t.broadcasts == s.broadcasts
    requires Count(t.workers, Looking) >= Count(s.workers, Looking)
    ensures NearlyManned(t)
  {
    IdleCountNudged(s.workers, t.workers);
  }

  lemma NearlyNudge(s: State, e: Step)
    requires NearlyManned(s) && Enabled(s, e) && (e.Spurious? || e.Finish? || e.NotifyIdle?)
    ensures NearlyManned(Apply(s, e))
  {
    AlikeStep(s, e);
    LookingNudge(s, e);
    match e
    case Spurious(_) => NearlyAlike(s, Apply(s, e));
    case Finish(_, _) => NearlyAlike(s, Apply(s, e));
    case NotifyIdle(_, _) => NearlyAlike(s, Apply(s, e));
  }

  /** A notify_all wakes everybody but one worker that is going to sleep. */
  lemma NearlyBroadcast(s: State)
    requires Inv(s) && Enabled(s, Broadcast)
    ensures NearlyManned(Apply(s, Broadcast))
  {
    var t := Apply(s, Broadcast);
    InvStep(s, Broadcast);
    if !t.stop {
      assert !SomeParked(t.workers);
      OneGoingToSleep(t);
    }
  }

  lemma NearlyStep(s: State, e: Step)
    requires Inv(s) && NearlyManned(s) && Enabled(s, e)
    ensures NearlyManned(Apply(s, e))
  {
    match e
    case Work(i) => NearlyWork(s, i);
    case Push(_) =>
    case Notify(w) => NearlyNotify(s, w);
    case Spurious(_) => NearlyNudge(s, e);
    case Finish(_, _) => NearlyNudge(s, e);
    case NotifyIdle(_, _) => NearlyNudge(s, e);
    case Pause =>
    case Resume =>
    case Broadcast => NearlyBroadcast(s);
    case RequestStop =>
    case ClearQueue =>
  }

  lemma {:induction false} NearlyRun(s: State, run: seq<Step>, t: State)
    requires Inv(s) && NearlyManned(s) && Leads(s, run, t)
    ensures NearlyManned(t)
    decreases |run|
  {
    if run != [] {
      InvStep(s, run[0]);
      NearlyStep(s, run[0]);
      NearlyRun(Apply(s, run[0]), run[1..], t);
    }
  }

  /**
   The shortfall that pausing can cause: in every interleaving, with stop not requested, the pool not
   paused and no notify_all to come, at most one worker is asleep, or the cap is used as without Pause.
   */
  lemma AtMostOneAsleep(s: State)
    requires Reachable(s) && !s.paused && !s.stop && s.broadcasts == 0
    ensures Count(s.workers, Idle) <= 1 || s.notifies + Count(s.workers, Looking) >= Room(s)
  {
    var cap: nat, n: nat, run: seq<Step> :| n > 0 && Leads(Initial(cap, n), run, s);
    InvInitial(cap, n);
    CountZero(Initial(cap, n).workers, Idle);
    NearlyRun(Initial(cap, n), run, s);
  }

  /** Two uncapped workers; the first has looked while the pool was paused. */
  ghost predicate Pair(s: State, first: Pc, second: Pc, paused: bool, queue: seq<Task>) {
    && Reachable(s) && s.cap == 0 && s.workers == [first, second] && !s.stop && s.paused == paused
    && s.queue == queue
    && s.lock == (if Holds(first) then HeldBy(0) else if Holds(second) then HeldBy(1) else Free)
  }

  lemma PairPaused() returns (s: State)
    ensures Pair(s, Top, Top, true, [7, 8]) && s.notifies == 2 && s.broadcasts == 0
  {
    s := Initial(0, 2);
    assert Leads(s, [], s) && s.workers == [Top, Top];
    s := Extended(s, Push(7));
    s := Extended(s, Push(8));
    s := Extended(s, Pause);
  }

  /** The first goes to sleep, the notifications find nobody asleep, and the notify_all misses it. */
  lemma PairMissed(s: State) returns (t: State)
    requires Pair(s, Top, Top, true, [7, 8]) && s.notifies == 2 && s.broadcasts == 0
    ensures Pair(t, Parking, Top, false, [7, 8]) && t.notifies == 0 && t.broadcasts == 0
  {
    t := Extended(s, Work(0));
    t := Extended(t, Work(0));
    assert t.workers == [Parking, Top];
    t := PairNotified(t);
    t := PairNotified(t);
    t := Extended(t, Resume);
    t := Extended(t, Broadcast);
    assert t.workers == [Parking, Top];
  }

  lemma PairNotified(s: State) returns (t: State)
    requires Pair(s, Parking, Top, true, [7, 8]) && s.notifies > 0
    ensures Pair(t, Parking, Top, true, [7, 8]) && t.notifies == s.notifies - 1 && t.broadcasts == s.broadcasts
  {
    t := Extended(s, Notify(0));
  }

  lemma PairSecond(s: State, pc: Pc) returns (t: State)
    requires Pair(s, Parked, pc, false, [7, 8])
    requires pc.Top? || pc.Testing? || pc.TestingCap? || pc.Awake? || pc.Admitted?
    ensures Pair(t, Parked, if pc.Top? then Testing else if pc.Testing? then TestingCap
                            else if pc.TestingCap? then Awake else if pc.Awake? then Admitted else Claiming,
                 false, [7, 8])
    ensures t.notifies == s.notifies && t.broadcasts == s.broadcasts
  {
    t := Extended(s, Work(1));
  }

  lemma PairSleeps(s: State) returns (t: State)
    requires Pair(s, Parking, Top, false, [7, 8])
    ensures Pair(t, Parked, Top, false, [7, 8]) && t.notifies == s.notifies && t.broadcasts == s.broadcasts
  {
    t := Extended(s, Work(0));
  }

  /** The shortfall is real: a worker sleeps over a task while the other is busy, and nothing will wake it before. */
  lemma OneLeftAsleep() returns (s: State)
    ensures Pair(s, Parked, Running(7), false, [8]) && s.notifies == 0 && s.broadcasts == 0
  {
    s := PairPaused();
    s := PairMissed(s);
    s := PairSleeps(s);
    s := PairSecond(s, Top);
    s := PairSecond(s, Testing);
    s := PairSecond(s, TestingCap);
    s := PairSecond(s, Awake);
    s := PairSecond(s, Admitted);
    s := PairTakes(s);
  }

  lemma PairTakes(s: State) returns (t: State)
    requires Pair(s, Parked, Claiming, false, [7, 8])
    ensures Pair(t, Parked, Running(7), false, [8]) && t.notifies == s.notifies && t.broadcasts == s.broadcasts
  {
    t := Extended(s, Work(1));
  }
}
