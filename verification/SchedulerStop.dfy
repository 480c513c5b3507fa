/**
 When Stop comes to an end: the join of the workers returns after a bounded
 number of their steps, or a worker can go round for ever.
 */
module SchedulerStop {

  import opened SchedulerModel
  import opened SchedulerInvariant
  import opened Scheduler
  import opened SchedulerBounds

  /** How many own steps a worker can still take once stop is requested, new tasks apart. */
  function StopRank(pc: Pc): nat {
    match pc
    case Running(_) => 8 case Finished => 7 case Decremented => 6
    case Top => 5 case Testing => 4 case Awake => 3 case Admitted => 2 case Claiming => 1
    case TestingCap => 1 case Parking => 1 case Parked => 1 case Exited => 0
  }

  function StopRanks(ws: seq<Pc>): nat {
    if ws == [] then 0 else StopRank(ws[0]) + StopRanks(ws[1..])
  }

  /** An upper bound for the own steps left until everyone has exited. */
  function StopDistance(s: State): nat {
    8 * |s.queue| + StopRanks(s.workers) + s.notifies + s.broadcasts
  }

  lemma {:induction false} StopRanksUpdate(ws: seq<Pc>, i: nat, pc: Pc)
    requires i < |ws|
    ensures StopRanks(ws[i := pc]) + StopRank(ws[i]) == StopRanks(ws) + StopRank(pc)
  {
    if i == 0 {
      assert ws[0 := pc][1..] == ws[1..];
    } else {
      StopRanksUpdate(ws[1..], i - 1, pc);
      assert ws[i := pc][1..] == ws[1..][i - 1 := pc];
    }
  }

  lemma {:induction false} NothingToDo(ws: seq<Pc>)
    requires StopRanks(ws) == 0
    ensures AllExited(ws)
  {
    if ws != [] {
      NothingToDo(ws[1..]);
    }
  }

  /** Stop is under way, nothing is paused, and the cap does not keep a free worker from a task. */
  predicate Stopping(s: State) {
    s.stop && !s.paused && (s.cap == 0 || s.cap >= |s.workers|)
  }

  lemma FreeWorkerMayGo(s: State, i: nat)
    requires Inv(s) && Stopping(s) && i < |s.workers| && s.workers[i].Admitted?
    ensures BelowCap(s)
  {
    NotCleared(s, i);
    AllAccountedFor(s.workers);
    SomeCounted(s.workers, i, Looking);
  }

  lemma StopRankDown(s: State, i: nat)
    requires Inv(s) && Stopping(s) && Enabled(s, Work(i)) && !s.workers[i].Claiming?
    ensures StopRank(NextPc(s, i)) < StopRank(s.workers[i])
  {
    assert Knows(s, i);
    if s.workers[i].Admitted? {
      FreeWorkerMayGo(s, i);
    }
  }

  /** The rank comes down, or the queue does. */
  lemma StopWorkBy(s: State, i: nat)
    requires Stopping(s) && Enabled(s, Work(i))
    requires s.workers[i].Claiming? || StopRank(NextPc(s, i)) < StopRank(s.workers[i])
    ensures Stopping(WorkStep(s, i)) && StopDistance(WorkStep(s, i)) < StopDistance(s)
  {
    StopRanksUpdate(s.workers, i, NextPc(s, i));
  }

  lemma StopWork(s: State, i: nat)
    requires Inv(s) && Stopping(s) && Enabled(s, Work(i))
    ensures Stopping(WorkStep(s, i)) && StopDistance(WorkStep(s, i)) < StopDistance(s)
  {
    if !s.workers[i].Claiming? {
      StopRankDown(s, i);
    }
    StopWorkBy(s, i);
  }

  lemma NobodyParked(s: State)
    requires AllKnow(s) && s.stop
    ensures !SomeParked(s.workers) && WakeAll(s.workers) == s.workers
    ensures forall w :: Wake(s.workers, w) == s.workers
  {
    forall i | 0 <= i < |s.workers|
      ensures !s.workers[i].Parked?
    {
      assert Knows(s, i);
    }
    assert forall i :: 0 <= i < |s.workers| ==> WakeAll(s.workers)[i] == s.workers[i];
  }

  lemma StopOther(s: State, e: Step)
    requires Stopping(s) && Own(e) && !e.Work? && Enabled(s, e)
    requires WakeAll(s.workers) == s.workers && forall w :: Wake(s.workers, w) == s.workers
    ensures Stopping(Apply(s, e)) && StopDistance(Apply(s, e)) < StopDistance(s)
  {
    match e
    case Finish(i, _) => StopRanksUpdate(s.workers, i, Finished);
    case NotifyIdle(i, _) => StopRanksUpdate(s.workers, i, Top);
    case Notify(_) =>
    case Broadcast =>
  }

  lemma StopStep(s: State, e: Step)
    requires Inv(s) && Stopping(s) && Own(e) && Enabled(s, e)
    ensures Stopping(Apply(s, e)) && StopDistance(Apply(s, e)) < StopDistance(s)
  {
    if e.Work? {
      StopWork(s, e.worker);
    } else {
      NobodyParked(s);
      StopOther(s, e);
    }
  }

  lemma {:induction false} StopRun(s: State, run: seq<Step>, t: State)
    requires Inv(s) && Stopping(s)
    requires Leads(s, run, t) && forall k :: 0 <= k < |run| ==> Own(run[k])
    ensures |run| + StopDistance(t) <= StopDistance(s)
    decreases |run|
  {
    if run != [] {
      StopStep(s, run[0]);
      InvStep(s, run[0]);
      StopRun(Apply(s, run[0]), run[1..], t);
    }
  }

  /**
   Stop ends: with no cap, or one no lower than the number of workers, nothing paused and nothing
   submitted any more, every sequence of own steps is bounded, and at the bound everyone has exited.
   */
  lemma StopEnds(s: State, run: seq<Step>, t: State)
    requires Reachable(s) && Stopping(s)
    requires Leads(s, run, t) && forall k :: 0 <= k < |run| ==> Own(run[k])
    ensures |run| <= StopDistance(s)
    ensures |run| == StopDistance(s) ==> AllExited(t.workers)
  {
    InvReachable(s);
    StopRun(s, run, t);
    if |run| == StopDistance(s) {
      NothingToDo(t.workers);
    }
  }

  /** And until then there is always a step to take. */
  lemma StopGoesOn(s: State) returns (e: Step)
    requires Reachable(s) && s.stop && !AllExited(s.workers)
    ensures Own(e) && Enabled(s, e)
  {
    InvReachable(s);
    var j :| 0 <= j < |s.workers| && !s.workers[j].Exited?;
    assert Knows(s, j);
    e := OwnStep(s, j);
  }

  /**
   From the request itself: whatever state Stop finds the pool in, paused or not, the workers take no
   more than a bounded number of steps until all have exited, unless the cap is below their number.
   */
  lemma StopFromRequest(s: State, run: seq<Step>, t: State)
    requires Reachable(s) && s.lock.Free? && (s.cap == 0 || s.cap >= |s.workers|)
    requires Leads(Apply(s, RequestStop), run, t) && forall k :: 0 <= k < |run| ==> Own(run[k])
    ensures |run| <= StopDistance(Apply(s, RequestStop))
    ensures |run| == StopDistance(Apply(s, RequestStop)) ==> AllExited(t.workers)
  {
    var u := Extended(s, RequestStop);
    StopEnds(u, run, t);
  }

  // ------------------------------------------------------------------ bounded or not

  ghost predicate ReachableFrom(cap: nat, n: nat, s: State) {
    exists run: seq<Step> :: Leads(Initial(cap, n), run, s)
  }

  ghost predicate AllOwn(run: seq<Step>) {
    forall k :: 0 <= k < |run| ==> Own(run[k])
  }

  /** There is a limit to the number of own steps. */
  ghost predicate Bounded(s: State) {
    exists b: nat :: BoundedBy(s, b)
  }

  ghost predicate BoundedBy(s: State, b: nat) {
    forall run, t :: Leads(s, run, t) && AllOwn(run) ==> |run| <= b
  }

  /** Own steps lead back to where they began. */
  ghost predicate Cycle(s: State, run: seq<Step>) {
    run != [] && AllOwn(run) && Leads(s, run, s)
  }

  lemma ShapeStep(s: State, e: Step)
    requires Enabled(s, e)
    ensures Apply(s, e).cap == s.cap && |Apply(s, e).workers| == |s.workers|
  {
    match e
    case Work(_) =>
    case Push(_) =>
    case Notify(_) =>
    case Spurious(_) =>
    case Finish(_, _) =>
    case NotifyIdle(_, _) =>
    case Pause =>
    case Resume =>
    case Broadcast =>
    case RequestStop =>
    case ClearQueue =>
  }

  lemma {:induction false} ShapeRun(s: State, run: seq<Step>, t: State)
    requires Leads(s, run, t)
    ensures t.cap == s.cap && |t.workers| == |s.workers|
    decreases |run|
  {
    if run != [] {
      ShapeStep(s, run[0]);
      ShapeRun(Apply(s, run[0]), run[1..], t);
    }
  }

  lemma FromIsReachable(cap: nat, n: nat, s: State)
    requires n > 0 && ReachableFrom(cap, n, s)
    ensures Reachable(s) && s.cap == cap && |s.workers| == n
  {
    var run: seq<Step> :| Leads(Initial(cap, n), run, s);
    ShapeRun(Initial(cap, n), run, s);
  }

  lemma StopIsBounded(s: State)
    requires Reachable(s) && Stopping(s)
    ensures Bounded(s)
  {
    forall run, t | Leads(s, run, t) && AllOwn(run)
      ensures |run| <= StopDistance(s)
    {
      StopEnds(s, run, t);
    }
    assert BoundedBy(s, StopDistance(s));
  }

  lemma {:induction false} LeadsOn(s: State, run: seq<Step>, t: State, more: seq<Step>, u: State)
    requires Leads(s, run, t) && Leads(t, more, u)
    ensures Leads(s, run + more, u)
    decreases |run|
  {
    if run == [] {
      assert [] + more == more;
    } else {
      LeadsOn(Apply(s, run[0]), run[1..], t, more, u);
      assert (run + more)[1..] == run[1..] + more;
    }
  }

  lemma {:induction false} Around(s: State, run: seq<Step>, times: nat) returns (long: seq<Step>)
    requires Cycle(s, run)
    ensures AllOwn(long) && Leads(s, long, s) && |long| >= times
  {
    if times == 0 {
      long := [];
    } else {
      var rest := Around(s, run, times - 1);
      LeadsOn(s, run, s, rest, s);
      long := run + rest;
    }
  }

  lemma CycleIsUnbounded(s: State, run: seq<Step>)
    requires Cycle(s, run)
    ensures !Bounded(s)
  {
    forall b: nat
      ensures !BoundedBy(s, b)
    {
      var long := Around(s, run, b + 1);
    }
  }

  lemma Onward(cap: nat, n: nat, s: State, e: Step) returns (t: State)
    requires ReachableFrom(cap, n, s) && Enabled(s, e)
    ensures t == Apply(s, e) && ReachableFrom(cap, n, t)
  {
    t := Apply(s, e);
    var run: seq<Step> :| Leads(Initial(cap, n), run, s);
    LeadsSnoc(Initial(cap, n), run, s, e);
  }

  // ------------------------------------------------------------------ a cap below the number of workers

  /** The first k of n workers are busy, the others about to look. */
  function Busy(n: nat, k: nat): seq<Pc> {
    seq(n, i => if i < k then Running(7) else Top)
  }

  ghost predicate Ready(cap: nat, n: nat, k: nat, s: State) {
    && ReachableFrom(cap, n, s) && s.cap == cap && s.active == k && !s.stop && !s.paused
    && s.queue == [] && s.lock == Free && s.workers == Busy(n, k)
  }

  /** Worker k is on its way to a task. */
  ghost predicate Taking(cap: nat, n: nat, k: nat, pc: Pc, s: State) {
    && k < n && ReachableFrom(cap, n, s) && s.cap == cap && s.active == k && !s.stop && !s.paused
    && s.queue == [7] && s.lock == (if Holds(pc) then HeldBy(k) else Free) && s.workers == Busy(n, k)[k := pc]
  }

  lemma TakingWork(cap: nat, n: nat, k: nat, pc: Pc, s: State) returns (t: State)
    requires Taking(cap, n, k, pc, s) && k < cap
    requires pc.Top? || pc.Testing? || pc.TestingCap? || pc.Awake? || pc.Admitted?
    ensures Taking(cap, n, k, if pc.Top? then Testing else if pc.Testing? then TestingCap
                              else if pc.TestingCap? then Awake else if pc.Awake? then Admitted else Claiming, t)
  {
    t := Onward(cap, n, s, Work(k));
  }

  lemma TakingStarts(cap: nat, n: nat, k: nat, s: State) returns (t: State)
    requires Ready(cap, n, k, s) && k < n
    ensures Taking(cap, n, k, Top, t)
  {
    t := Onward(cap, n, s, Push(7));
    assert Busy(n, k)[k := Top] == Busy(n, k);
  }

  lemma TakingEnds(cap: nat, n: nat, k: nat, s: State) returns (t: State)
    requires Taking(cap, n, k, Claiming, s)
    ensures Ready(cap, n, k + 1, t)
  {
    t := Onward(cap, n, s, Work(k));
    assert Busy(n, k)[k := Running(7)] == Busy(n, k + 1);
  }

  lemma {:induction false} MakeBusy(cap: nat, n: nat, k: nat) returns (s: State)
    requires k <= cap && k <= n
    ensures Ready(cap, n, k, s)
  {
    if k == 0 {
      s := Initial(cap, n);
      assert Leads(s, [], s) && s.workers == Busy(n, 0);
    } else {
      s := MakeBusy(cap, n, k - 1);
      s := TakingStarts(cap, n, k - 1, s);
      s := TakingWork(cap, n, k - 1, Top, s);
      s := TakingWork(cap, n, k - 1, Testing, s);
      s := TakingWork(cap, n, k - 1, TestingCap, s);
      s := TakingWork(cap, n, k - 1, Awake, s);
      s := TakingWork(cap, n, k - 1, Admitted, s);
      s := TakingEnds(cap, n, k - 1, s);
    }
  }

  /** The cap is filled, a task is queued, stop is requested, and one more worker looks. */
  ghost predicate Full(cap: nat, n: nat, pc: Pc, s: State) {
    && cap < n && ReachableFrom(cap, n, s) && s.cap == cap > 0 && s.active == cap && s.stop && !s.paused
    && s.queue == [8] && s.lock == (if Holds(pc) then HeldBy(cap) else Free)
    && s.workers == Busy(n, cap)[cap := pc]
  }

  lemma FullWork(cap: nat, n: nat, pc: Pc, s: State) returns (t: State)
    requires Full(cap, n, pc, s) && (pc.Top? || pc.Testing? || pc.Awake? || pc.Admitted?)
    ensures Enabled(s, Work(cap)) && t == Apply(s, Work(cap))
    ensures Full(cap, n, if pc.Top? then Testing else if pc.Testing? then Awake
                         else if pc.Awake? then Admitted else Top, t)
    ensures t == s.(workers := t.workers, lock := t.lock)
  {
    t := Onward(cap, n, s, Work(cap));
  }

  lemma MakeFull(cap: nat, n: nat) returns (s: State)
    requires 0 < cap < n
    ensures Full(cap, n, Top, s)
  {
    s := MakeBusy(cap, n, cap);
    s := Onward(cap, n, s, Push(8));
    s := Onward(cap, n, s, RequestStop);
    assert s.workers == Busy(n, cap) == Busy(n, cap)[cap := Top];
  }

  lemma FourSteps(s: State, a: State, b: State, c: State, e: Step)
    requires Enabled(s, e) && a == Apply(s, e) && Enabled(a, e) && b == Apply(a, e)
    requires Enabled(b, e) && c == Apply(b, e) && Enabled(c, e) && Apply(c, e) == s && Own(e)
    ensures Cycle(s, [e, e, e, e])
  {
    var run := [e, e, e, e];
    assert Leads(s, run[4..], s);
    assert run[3..][1..] == run[4..] && Leads(c, run[3..], s);
    assert run[2..][1..] == run[3..] && Leads(b, run[2..], s);
    assert run[1..][1..] == run[2..] && Leads(a, run[1..], s);
  }

  /**
   With any cap below the number of workers: a worker that finds the cap reached does not sleep once
   stop is requested, and can go round for ever while the others' tasks run.
   */
  lemma StopCanSpin(cap: nat, n: nat) returns (s: State, run: seq<Step>)
    requires 0 < cap < n
    ensures ReachableFrom(cap, n, s) && s.stop && !s.paused && Cycle(s, run)
  {
    s := MakeFull(cap, n);
    var a := FullWork(cap, n, Top, s);
    var b := FullWork(cap, n, Testing, a);
    var c := FullWork(cap, n, Awake, b);
    var d := FullWork(cap, n, Admitted, c);
    assert d == s;
    FourSteps(s, a, b, c, Work(cap));
    run := [Work(cap), Work(cap), Work(cap), Work(cap)];
  }

  // ------------------------------------------------------------------ Pause after the request

  /** Stop is requested, then the pool is paused over a queued task; worker 0 looks. */
  ghost predicate PausedStop(cap: nat, n: nat, pc: Pc, s: State) {
    && n > 0 && ReachableFrom(cap, n, s) && s.stop && s.paused && s.queue == [7]
    && s.lock == (if Holds(pc) then HeldBy(0) else Free) && s.workers == Busy(n, 0)[0 := pc]
  }

  lemma MakePausedStop(cap: nat, n: nat) returns (s: State)
    requires n > 0
    ensures PausedStop(cap, n, Top, s)
  {
    s := Initial(cap, n);
    assert Leads(s, [], s) && s.workers == Busy(n, 0);
    s := Onward(cap, n, s, Push(7));
    s := Onward(cap, n, s, RequestStop);
    s := Onward(cap, n, s, Pause);
    assert s.workers == Busy(n, 0) == Busy(n, 0)[0 := Top];
  }

  lemma PausedStopWork(cap: nat, n: nat, pc: Pc, s: State) returns (t: State)
    requires PausedStop(cap, n, pc, s) && (pc.Top? || pc.Testing? || pc.Awake?)
    ensures Enabled(s, Work(0)) && t == Apply(s, Work(0))
    ensures PausedStop(cap, n, if pc.Top? then Testing else if pc.Testing? then Awake else Top, t)
    ensures t == s.(workers := t.workers, lock := t.lock)
  {
    t := Onward(cap, n, s, Work(0));
  }

  /**
   A Pause that comes after the request undoes the reset of the flag: with any cap and any number of
   workers, one of them can go round for ever over a queued task.
   */
  lemma PauseMakesStopSpin(cap: nat, n: nat) returns (s: State, run: seq<Step>)
    requires n > 0
    ensures ReachableFrom(cap, n, s) && s.stop && s.paused && Cycle(s, run)
  {
    s := MakePausedStop(cap, n);
    var a := PausedStopWork(cap, n, Top, s);
    var b := PausedStopWork(cap, n, Testing, a);
    var c := PausedStopWork(cap, n, Awake, b);
    assert c == s;
    var e := Work(0);
    run := [e, e, e];
    assert Leads(s, run[3..], s);
    assert run[2..][1..] == run[3..] && Leads(b, run[2..], s);
    assert run[1..][1..] == run[2..] && Leads(a, run[1..], s);
  }

  /**
   Exactly when Stop ends: for every cap and number of workers, the own steps from every state with
   stop requested are bounded if and only if the pool is not paused after the request and the cap is
   none or no lower than the number of workers.
   */
  lemma StopBoundedIff(cap: nat, n: nat, paused: bool)
    requires n > 0
    ensures (forall s :: ReachableFrom(cap, n, s) && s.stop && s.paused == paused ==> Bounded(s))
            <==> !paused && (cap == 0 || cap >= n)
  {
    if paused {
      var s, run := PauseMakesStopSpin(cap, n);
      CycleIsUnbounded(s, run);
    } else if 0 < cap < n {
      var s, run := StopCanSpin(cap, n);
      CycleIsUnbounded(s, run);
    } else {
      forall s | ReachableFrom(cap, n, s) && s.stop && s.paused == paused
        ensures Bounded(s)
      {
        FromIsReachable(cap, n, s);
        StopIsBounded(s);
      }
    }
  }
}
