/** What every step of the thread pool keeps, in every interleaving. */
module SchedulerInvariant {

  import opened SchedulerModel

  // --------------------------------------------------------- mutual exclusion

  /** The lock is held by exactly the worker whose program counter is inside the critical section. */
  ghost predicate Exclusive(s: State) {
    && |s.workers| > 0
    && (s.lock.HeldBy? ==> s.lock.worker < |s.workers|)
    && forall i :: 0 <= i < |s.workers| ==> (Holds(s.workers[i]) <==> s.lock == HeldBy(i))
  }

  /** What the lock holder has established, and what no worker can be once stop is requested. */
  ghost predicate Knows(s: State, i: nat)
    requires i < |s.workers|
  {
    var pc := s.workers[i];
    && (pc.TestingCap? || pc.Admitted? || pc.Claiming? ==> s.queue != [])
    && (pc.Claiming? ==> BelowCap(s))
    && (!s.stop && (pc.Awake? || pc.Admitted?) ==> BelowCap(s) && s.queue != [])
    && (s.stop ==> !pc.Parked? && !pc.Parking? && !pc.TestingCap?)
    && (pc.Exited? ==> s.stop)
  }

  ghost predicate AllKnow(s: State) {
    forall i :: 0 <= i < |s.workers| ==> Knows(s, i)
  }

  lemma ExclusiveWork(s: State, i: nat)
    requires Exclusive(s) && Enabled(s, Work(i))
    ensures Exclusive(WorkStep(s, i))
  {
    assert forall j :: 0 <= j < |s.workers| && j != i ==> WorkStep(s, i).workers[j] == s.workers[j];
  }

  lemma ExclusiveStep(s: State, e: Step)
    requires Exclusive(s) && Enabled(s, e)
    ensures Exclusive(Apply(s, e))
  {
    if e.Work? {
      ExclusiveWork(s, e.worker);
    } else {
      OtherSteps(s, e);
    }
  }

  lemma AllKnowWork(s: State, i: nat)
    requires Exclusive(s) && AllKnow(s) && Enabled(s, Work(i))
    ensures AllKnow(WorkStep(s, i))
  {
    var t := WorkStep(s, i);
    forall j | 0 <= j < |t.workers|
      ensures Knows(t, j)
    {
      assert Knows(s, j) && Knows(s, i);
    }
  }

  lemma AllKnowAlike(s: State, t: State)
    requires AllKnow(s) && Alike(s, t)
    ensures AllKnow(t)
  {
    forall j | 0 <= j < |t.workers|
      ensures Knows(t, j)
    {
      assert Knows(s, j) && Nudged(s.workers[j], t.workers[j]);
    }
  }

  lemma AllKnowStop(s: State)
    requires Exclusive(s) && AllKnow(s) && s.lock.Free?
    ensures AllKnow(Apply(s, RequestStop))
  {
    var t := Apply(s, RequestStop);
    forall j | 0 <= j < |t.workers|
      ensures Knows(t, j)
    {
      assert Knows(s, j) && !Holds(s.workers[j]);
    }
  }

  lemma AllKnowStep(s: State, e: Step)
    requires Exclusive(s) && AllKnow(s) && Enabled(s, e)
    ensures AllKnow(Apply(s, e))
  {
    if e.Work? {
      AllKnowWork(s, e.worker);
    } else if e.RequestStop? {
      AllKnowStop(s);
    } else if !e.ClearQueue? {
      AlikeStep(s, e);
      AllKnowAlike(s, Apply(s, e));
    }
  }

  // ------------------------------------------------- conservation and the cap

  /** The counters and the queue agree with what has been submitted, started and finished. */
  ghost predicate Accounted(s: State) {
    !s.cleared ==>
      && s.submitted == s.started + s.queue
      && s.active == Count(s.workers, Active)
      && |s.started| == Count(s.workers, IsRunning) + s.completed + s.failed
      && (s.cap > 0 ==> s.active <= s.cap)
  }

  lemma AccountedClaim(s: State, i: nat)
    requires AllKnow(s) && Accounted(s) && Enabled(s, Work(i)) && s.workers[i].Claiming?
    ensures Accounted(WorkStep(s, i))
  {
    CountUpdate(s.workers, i, Running(s.queue[0]), Active);
    CountUpdate(s.workers, i, Running(s.queue[0]), IsRunning);
    assert Knows(s, i);
    assert s.started + s.queue == (s.started + [s.queue[0]]) + s.queue[1..];
  }

  lemma AccountedWork(s: State, i: nat)
    requires AllKnow(s) && Accounted(s) && Enabled(s, Work(i))
    ensures Accounted(WorkStep(s, i))
  {
    if s.workers[i].Claiming? {
      AccountedClaim(s, i);
    } else {
      var pc := NextPc(s, i);
      assert !IsRunning(pc) && !Active(pc);
      CountUpdate(s.workers, i, pc, Active);
      CountUpdate(s.workers, i, pc, IsRunning);
    }
  }

  lemma AccountedStep(s: State, e: Step)
    requires AllKnow(s) && Accounted(s) && Enabled(s, e)
    ensures Accounted(Apply(s, e))
  {
    match e
    case Work(i) => AccountedWork(s, i);
    case Notify(w) =>
      CountWake(s.workers, w, Active);
      CountWake(s.workers, w, IsRunning);
    case Spurious(w) =>
      CountUpdate(s.workers, w, Top, Active);
      CountUpdate(s.workers, w, Top, IsRunning);
    case Finish(i, ok) =>
      CountUpdate(s.workers, i, Finished, Active);
      CountUpdate(s.workers, i, Finished, IsRunning);
    case NotifyIdle(i, w) =>
      CountWake(s.workers, w, Active);
      CountWake(s.workers, w, IsRunning);
      CountUpdate(Wake(s.workers, w), i, Top, Active);
      CountUpdate(Wake(s.workers, w), i, Top, IsRunning);
    case Broadcast =>
      CountWakeAll(s.workers, Active);
      CountWakeAll(s.workers, IsRunning);
    case RequestStop =>
      CountWakeAll(s.workers, Active);
      CountWakeAll(s.workers, IsRunning);
    case Push(_) =>
    case Pause =>
    case Resume =>
    case ClearQueue =>
  }

  // ------------------------------------------------------------------- draining

  /**
   `exitMark` counts the submissions made before the latest exit. All of them were taken off the
   queue by then, and once nobody is left none of the later ones ever is.
   */
  ghost predicate DrainedUpToExit(s: State) {
    && s.exitMark <= |s.started|
    && s.submitted == s.started + (s.discarded + s.queue)
    && (AllExited(s.workers) ==> s.exitMark == |s.started|)
    && (s.cleared ==> AllExited(s.workers))
    && (!s.cleared ==> s.discarded == [])
  }

  lemma DrainedClaim(s: State, i: nat)
    requires DrainedUpToExit(s) && Enabled(s, Work(i)) && s.workers[i].Claiming?
    ensures DrainedUpToExit(WorkStep(s, i))
  {
    var t := WorkStep(s, i);
    assert !s.cleared && t.workers[i].Running?;
    assert s.started + ([] + s.queue) == (s.started + [s.queue[0]]) + ([] + s.queue[1..]);
  }

  lemma DrainedWork(s: State, i: nat)
    requires AllKnow(s) && DrainedUpToExit(s) && Enabled(s, Work(i))
    ensures DrainedUpToExit(WorkStep(s, i))
  {
    if s.workers[i].Claiming? {
      DrainedClaim(s, i);
    } else {
      var t := WorkStep(s, i);
      assert !s.workers[i].Exited? && !s.cleared;
      assert t.workers[i] == NextPc(s, i);
    }
  }

  lemma DrainedPush(s: State, task: Task)
    requires DrainedUpToExit(s) && Enabled(s, Push(task))
    ensures DrainedUpToExit(Apply(s, Push(task)))
  {
    assert (s.started + (s.discarded + s.queue)) + [task] == s.started + (s.discarded + (s.queue + [task]));
  }

  lemma DrainedAlike(s: State, t: State)
    requires DrainedUpToExit(s) && Alike(s, t) && t.queue == s.queue && t.submitted == s.submitted
    ensures DrainedUpToExit(t)
  {
    AllExitedAlike(s.workers, t.workers);
  }

  lemma AllExitedAlike(ws: seq<Pc>, ws': seq<Pc>)
    requires AllNudged(ws, ws')
    ensures AllExited(ws) <==> AllExited(ws')
  {
    if AllExited(ws') {
      assert forall j :: 0 <= j < |ws| ==> Nudged(ws[j], ws'[j]);
    }
  }

  lemma DrainedStop(s: State, e: Step)
    requires DrainedUpToExit(s) && Enabled(s, e) && OfStop(e)
    ensures DrainedUpToExit(Apply(s, e))
  {
    OtherSteps(s, e);
    AllExitedAlike(s.workers, Apply(s, e).workers);
  }

  lemma DrainedStep(s: State, e: Step)
    requires AllKnow(s) && DrainedUpToExit(s) && Enabled(s, e)
    ensures DrainedUpToExit(Apply(s, e))
  {
    if e.Work? {
      DrainedWork(s, e.worker);
    } else if e.Push? {
      DrainedPush(s, e.task);
    } else if OfStop(e) {
      DrainedStop(s, e);
    } else {
      AlikeStep(s, e);
      DrainedAlike(s, Apply(s, e));
    }
  }

  // ---------------------------------------------------------------- no lost work

  predicate SomeLively(ws: seq<Pc>) { exists j :: 0 <= j < |ws| && Lively(ws[j]) }

  /** Somebody other than `i` is outside the critical section and will come back to it. */
  predicate Relieved(ws: seq<Pc>, i: nat) {
    exists j :: 0 <= j < |ws| && j != i && Lively(ws[j]) && !Holds(ws[j])
  }

  /** Work may wait: the pool is or was paused, and a notify_all is to come or went amiss. */
  predicate Excused(s: State) {
    s.everPaused && (s.paused || s.broadcasts > 0 || s.raced)
  }

  /** After a race the only worker sleeps, or is about to. */
  predicate RaceLost(s: State) {
    s.queue != [] && !s.stop && |s.workers| == 1 && (s.workers[0].Parking? || s.workers[0].Parked?)
  }

  ghost predicate Served(s: State) {
    && (s.paused ==> s.everPaused)
    && (s.raced ==> s.everPaused && RaceLost(s))
    && (s.queue != [] && !Excused(s) ==>
          && (AllExited(s.workers) || s.notifies > 0 || SomeLively(s.workers))
          && (forall i :: 0 <= i < |s.workers| && s.workers[i].Parking? ==> Relieved(s.workers, i)))
  }

  ghost predicate Inv(s: State) {
    Exclusive(s) && AllKnow(s) && Accounted(s) && DrainedUpToExit(s) && Served(s)
  }

  /** A worker that finds the cap reached is not alone: whoever fills the cap still has to return. */
  lemma CapMeansCompany(s: State, i: nat)
    requires Inv(s) && Enabled(s, Work(i)) && s.workers[i].TestingCap? && !BelowCap(s)
    ensures Relieved(s.workers, i)
  {
    assert !s.cleared;
    var j := CountPositive(s.workers, Active);
    assert j != i;
  }

  /** Relief survives every step of another worker, since only `i` holds the lock. */
  lemma RelievedWork(s: State, i: nat, k: nat)
    requires Exclusive(s) && Enabled(s, Work(k))
    requires i < |s.workers| && i != k && s.workers[i].Parking? && Relieved(s.workers, i)
    ensures WorkStep(s, k).queue == s.queue && Relieved(WorkStep(s, k).workers, i)
  {
    assert s.lock == HeldBy(i);
    var j :| 0 <= j < |s.workers| && j != i && Lively(s.workers[j]) && !Holds(s.workers[j]);
    var t := WorkStep(s, k);
    assert s.workers[k].Finished?;
    assert Lively(t.workers[j]) && !Holds(t.workers[j]);
  }

  lemma RaceLostWork(s: State, k: nat)
    requires Inv(s) && Enabled(s, Work(k)) && s.raced
    ensures RaceLost(WorkStep(s, k))
  {
    assert k == 0 && NextPc(s, 0) == Parked;
  }

  lemma LivelyAfterWork(s: State, k: nat)
    requires Inv(s) && Enabled(s, Work(k)) && !s.raced && !Excused(s) && WorkStep(s, k).queue != []
    ensures SomeLively(WorkStep(s, k).workers)
  {
    var t := WorkStep(s, k);
    assert t.workers[k] == NextPc(s, k);
    if s.workers[k].Parking? {
      var j :| 0 <= j < |s.workers| && j != k && Lively(s.workers[j]) && !Holds(s.workers[j]);
      assert Lively(t.workers[j]);
    } else {
      assert Lively(t.workers[k]);
    }
  }

  lemma RelievedAfterWork(s: State, k: nat, i: nat)
    requires Inv(s) && Enabled(s, Work(k)) && !s.raced && !Excused(s) && WorkStep(s, k).queue != []
    requires i < |s.workers| && WorkStep(s, k).workers[i].Parking?
    ensures Relieved(WorkStep(s, k).workers, i)
  {
    if i != k {
      RelievedWork(s, i, k);
    } else {
      var t := WorkStep(s, k);
      CapMeansCompany(s, k);
      var j :| 0 <= j < |s.workers| && j != k && Lively(s.workers[j]) && !Holds(s.workers[j]);
      assert Lively(t.workers[j]) && !Holds(t.workers[j]);
    }
  }

  lemma ServedWork(s: State, k: nat)
    requires Inv(s) && Enabled(s, Work(k))
    ensures Served(WorkStep(s, k))
  {
    var t := WorkStep(s, k);
    if s.raced {
      RaceLostWork(s, k);
    } else if !Excused(s) && t.queue != [] {
      LivelyAfterWork(s, k);
      forall i | 0 <= i < |t.workers| && t.workers[i].Parking?
        ensures Relieved(t.workers, i)
      {
        RelievedAfterWork(s, k, i);
      }
    }
  }

  /** Steps other than `Work` only ever make blocked workers lively. */
  lemma StaysLively(ws: seq<Pc>, ws': seq<Pc>)
    requires AllNudged(ws, ws')
    ensures SomeLively(ws) ==> SomeLively(ws')
    ensures AllExited(ws) ==> AllExited(ws')
    ensures forall i :: 0 <= i < |ws| && Relieved(ws, i) ==> Relieved(ws', i)
  {
    if SomeLively(ws) {
      var j :| 0 <= j < |ws| && Lively(ws[j]);
      assert Lively(ws'[j]);
    }
    forall i | 0 <= i < |ws| && Relieved(ws, i)
      ensures Relieved(ws', i)
    {
      var j :| 0 <= j < |ws| && j != i && Lively(ws[j]) && !Holds(ws[j]);
      assert Lively(ws'[j]) && !Holds(ws'[j]);
    }
  }

  /** A notification leaves somebody lively unless everybody is gone. */
  lemma NotifyServes(s: State, w: nat)
    requires Enabled(s, Notify(w)) && !AllExited(s.workers)
    ensures SomeLively(Wake(s.workers, w))
  {
    var ws := Wake(s.workers, w);
    if SomeParked(s.workers) {
      assert Lively(ws[w]);
    } else {
      var k :| 0 <= k < |s.workers| && !s.workers[k].Exited?;
      assert Lively(ws[k]);
    }
  }

  /** A notify_all wakes everybody but a worker that is about to sleep; that one is relieved by any other. */
  lemma BroadcastServes(s: State)
    requires Inv(s) && s.queue != [] && !AllExited(s.workers)
    ensures SomeLively(WakeAll(s.workers))
    ensures forall i :: 0 <= i < |s.workers| && s.workers[i].Parking? && |s.workers| > 1 ==>
              Relieved(WakeAll(s.workers), i)
  {
    var ws := WakeAll(s.workers);
    var k :| 0 <= k < |s.workers| && !s.workers[k].Exited?;
    assert Lively(ws[k]);
    forall i | 0 <= i < |s.workers| && s.workers[i].Parking? && |s.workers| > 1
      ensures Relieved(ws, i)
    {
      var j := if i == 0 then 1 else 0;
      assert Knows(s, i) && Knows(s, j);
      assert s.lock == HeldBy(i);
      assert Lively(ws[j]) && !Holds(ws[j]);
    }
  }

  lemma ServedBroadcast(s: State)
    requires Inv(s) && Enabled(s, Broadcast)
    ensures Served(Apply(s, Broadcast))
  {
    var t := Apply(s, Broadcast);
    if s.queue != [] && !AllExited(s.workers) {
      BroadcastServes(s);
      if |s.workers| == 1 && s.workers[0].Parking? {
        assert !Relieved(s.workers, 0);
        assert Knows(s, 0);
      }
    }
    if AllExited(s.workers) {
      assert t.workers == s.workers;
    }
  }

  lemma ServedPush(s: State, task: Task)
    requires Inv(s) && Enabled(s, Push(task))
    ensures Served(Apply(s, Push(task)))
  {
    assert forall i :: 0 <= i < |s.workers| ==> !Holds(s.workers[i]);
  }

  lemma ServedNotify(s: State, w: nat)
    requires Inv(s) && Enabled(s, Notify(w))
    ensures Served(Apply(s, Notify(w)))
  {
    NudgeWake(s.workers, w);
    StaysLively(s.workers, Wake(s.workers, w));
    if !AllExited(s.workers) {
      NotifyServes(s, w);
    }
    if s.raced && SomeParked(s.workers) {
      assert s.workers[0].Parked?;
    }
  }

  lemma ServedStop(s: State)
    requires Inv(s) && Enabled(s, RequestStop)
    ensures Served(Apply(s, RequestStop))
  {
    assert forall i :: 0 <= i < |s.workers| ==> !Holds(s.workers[i]);
    StopServes(s);
  }

  /** Steps that take away neither a notification nor a pause. */
  lemma ServedAlike(s: State, t: State)
    requires Served(s) && Alike(s, t) && t.queue == s.queue && t.notifies == s.notifies
    requires (t.paused ==> t.everPaused) && (s.everPaused ==> t.everPaused)
    requires t.raced ==> s.raced && t.workers == s.workers
    requires Excused(s) ==> Excused(t)
    ensures Served(t)
  {
    StaysLively(s.workers, t.workers);
  }

  lemma ServedSpurious(s: State, w: nat)
    requires Inv(s) && Enabled(s, Spurious(w))
    ensures Served(Apply(s, Spurious(w)))
  {
    var t := Apply(s, Spurious(w));
    AlikeStep(s, Spurious(w));
    StaysLively(s.workers, t.workers);
    assert Lively(t.workers[w]);
    if s.raced {
      assert |t.workers| == 1 && t.workers[0] == Top;
    }
  }

  lemma ServedStep(s: State, e: Step)
    requires Inv(s) && Enabled(s, e)
    ensures Served(Apply(s, e))
  {
    match e
    case Work(k) => ServedWork(s, k);
    case Push(task) => ServedPush(s, task);
    case Notify(w) => ServedNotify(s, w);
    case Spurious(w) => ServedSpurious(s, w);
    case Broadcast => ServedBroadcast(s);
    case RequestStop => ServedStop(s);
    case ClearQueue =>
    case Finish(i, ok) => ServedOther(s, e);
    case NotifyIdle(i, w) => ServedOther(s, e);
    case Pause => ServedOther(s, e);
    case Resume => ServedOther(s, e);
  }

  lemma ServedOther(s: State, e: Step)
    requires Inv(s) && Enabled(s, e) && (e.Finish? || e.NotifyIdle? || e.Pause? || e.Resume?)
    ensures Served(Apply(s, e))
  {
    var t := Apply(s, e);
    AlikeStep(s, e);
    assert s.raced ==> !e.Finish? && !e.NotifyIdle?;
    match e
    case Finish(_, _) => ServedAlike(s, t);
    case NotifyIdle(_, _) => ServedAlike(s, t);
    case Pause => ServedAlike(s, t);
    case Resume => ServedAlike(s, t);
  }

  lemma StopServes(s: State)
    requires Inv(s) && Enabled(s, RequestStop)
    ensures AllExited(WakeAll(s.workers)) || SomeLively(WakeAll(s.workers))
  {
    var ws := WakeAll(s.workers);
    if !AllExited(ws) {
      var k :| 0 <= k < |ws| && !ws[k].Exited?;
      assert Lively(ws[k]);
    }
  }

  lemma InvStep(s: State, e: Step)
    requires Inv(s) && Enabled(s, e)
    ensures Inv(Apply(s, e))
  {
    ExclusiveStep(s, e);
    AllKnowStep(s, e);
    AccountedStep(s, e);
    DrainedStep(s, e);
    ServedStep(s, e);
  }

  lemma InvInitial(cap: nat, n: nat)
    requires n > 0
    ensures Inv(Initial(cap, n))
  {
    var s := Initial(cap, n);
    CountZero(s.workers, Active);
    CountZero(s.workers, IsRunning);
    assert !s.workers[0].Exited?;
  }

  lemma {:induction false} InvRun(s: State, run: seq<Step>, t: State)
    requires Inv(s) && Leads(s, run, t)
    ensures Inv(t)
    decreases |run|
  {
    if run != [] {
      InvStep(s, run[0]);
      InvRun(Apply(s, run[0]), run[1..], t);
    }
  }

  lemma InvReachable(s: State)
    requires Reachable(s)
    ensures Inv(s)
  {
    var cap: nat, n: nat, run: seq<Step> :| n > 0 && Leads(Initial(cap, n), run, s);
    InvInitial(cap, n);
    InvRun(Initial(cap, n), run, s);
  }
}
