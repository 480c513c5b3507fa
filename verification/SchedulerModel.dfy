/**
 The thread pool of `async_scheduler_impl.cpp` as a system of interleaved steps.

 Each worker has a program counter. A step is one access to shared state that
 another thread can observe: what a worker does while it holds `queue_mutex` is
 split wherever it reads `paused` or `active_tasks`, because those change
 without the lock (Pause, Resume and the decrement at the end of a task).
 */
module SchedulerModel {

  type Task = nat

  /** Where a worker is in `workerLoop`. */
  datatype Pc =
    | Top              // at the head of the loop, or notified: the lock is still to be taken
    | Testing          // lock held, about to evaluate the wait predicate
    | TestingCap       // lock held, a task may be taken unless the cap is reached
    | Parking          // lock held, the predicate was false
    | Parked           // blocked on the condition variable
    | Awake            // lock held, the wait is over
    | Admitted         // lock held, past the second test of `paused`
    | Claiming         // lock held, past the second test of the cap
    | Running(task: Task)
    | Finished         // the task is counted as completed or failed
    | Decremented      // `active_tasks` is decremented, the notification is still to come
    | Exited

  predicate Holds(pc: Pc) {
    pc.Testing? || pc.TestingCap? || pc.Parking? || pc.Awake? || pc.Admitted? || pc.Claiming?
  }

  /** Between the increment and the decrement of `active_tasks`. */
  predicate Active(pc: Pc) { pc.Running? || pc.Finished? }

  predicate IsRunning(pc: Pc) { pc.Running? }

  /** Neither blocked nor gone: the worker will look at the queue again. */
  predicate Lively(pc: Pc) { !pc.Parked? && !pc.Exited? }

  datatype Lock = Free | HeldBy(worker: nat)

  datatype State = State(
    cap: nat, queue: seq<Task>, stop: bool, paused: bool,
    active: int, completed: nat, failed: nat,
    workers: seq<Pc>, lock: Lock,
    notifies: nat,       // pushes whose notify_one is still to come
    broadcasts: nat,     // resumes whose notify_all is still to come
    // history, read by no step
    submitted: seq<Task>, started: seq<Task>, everPaused: bool, exitMark: nat,
    cleared: bool, discarded: seq<Task>,
    raced: bool)         // a notify_all found the only worker between its test and its sleep, and nothing woke it since

  datatype Step =
    | Push(task: Task)               // ScheduleTask, inside the lock
    | Notify(target: nat)            // its notify_one
    | Spurious(target: nat)          // a wake-up without a notification
    | Work(worker: nat)              // the worker's next step, where it has no choice
    | Finish(worker: nat, ok: bool)  // the task returns or throws
    | NotifyIdle(worker: nat, target: nat)
    | Pause
    | Resume
    | Broadcast
    | RequestStop                    // the first critical section of Stop
    | ClearQueue                     // Stop once every worker has been joined

  function Initial(cap: nat, n: nat): State {
    State(cap, [], false, false, 0, 0, 0, seq(n, _ => Top), Free, 0, 0, [], [], false, 0, false, [], false)
  }

  predicate SomeParked(ws: seq<Pc>) { exists i :: 0 <= i < |ws| && ws[i].Parked? }

  predicate AllExited(ws: seq<Pc>) { forall i :: 0 <= i < |ws| ==> ws[i].Exited? }

  /** `notify_one` wakes one blocked worker if there is any. */
  predicate CanWake(ws: seq<Pc>, target: nat) {
    SomeParked(ws) ==> target < |ws| && ws[target].Parked?
  }

  function Wake(ws: seq<Pc>, target: nat): seq<Pc> {
    if target < |ws| && ws[target].Parked? then ws[target := Top] else ws
  }

  function WakeAll(ws: seq<Pc>): (r: seq<Pc>)
    ensures |r| == |ws|
  {
    seq(|ws|, i requires 0 <= i < |ws| => if ws[i].Parked? then Top else ws[i])
  }

  predicate Enabled(s: State, e: Step) {
    match e
    case Push(_) => s.lock.Free?
    case Notify(w) => s.notifies > 0 && CanWake(s.workers, w)
    case Spurious(w) => w < |s.workers| && s.workers[w].Parked?
    case Work(i) =>
      i < |s.workers|
      && var pc := s.workers[i];
         !pc.Parked? && !pc.Exited? && !pc.Running? && !pc.Decremented?
         && (pc.Top? ==> s.lock.Free?) && (pc.Claiming? ==> s.queue != [])
    case Finish(i, _) => i < |s.workers| && s.workers[i].Running?
    case NotifyIdle(i, w) => i < |s.workers| && s.workers[i].Decremented? && CanWake(s.workers, w)
    case Pause => true
    case Resume => true
    case Broadcast => s.broadcasts > 0
    case RequestStop => s.lock.Free?
    case ClearQueue => s.stop && AllExited(s.workers)
  }

  predicate BelowCap(s: State) { s.cap == 0 || s.active < s.cap }

  /** Where worker `i` goes from a point at which it has no choice. */
  function NextPc(s: State, i: nat): Pc
    requires Enabled(s, Work(i))
  {
    match s.workers[i]
    case Top => Testing
    case Testing =>
      if s.stop then Awake else if s.queue == [] || s.paused then Parking else TestingCap
    case TestingCap => if BelowCap(s) then Awake else Parking
    case Parking => Parked
    case Awake =>
      if s.stop && s.queue == [] then Exited else if s.paused || s.queue == [] then Top else Admitted
    case Admitted => if BelowCap(s) then Claiming else Top
    case Claiming => Running(s.queue[0])
    case Finished => Decremented
  }

  /** The lock is taken and released as the program counter enters and leaves the critical section. */
  function NextLock(s: State, i: nat, pc: Pc): Lock
    requires i < |s.workers|
  {
    if Holds(pc) then HeldBy(i) else if Holds(s.workers[i]) then Free else s.lock
  }

  function WorkStep(s: State, i: nat): State
    requires Enabled(s, Work(i))
  {
    var pc, pc' := s.workers[i], NextPc(s, i);
    s.(workers := s.workers[i := pc'],
       lock := NextLock(s, i, pc'),
       queue := if pc.Claiming? then s.queue[1..] else s.queue,
       started := if pc.Claiming? then s.started + [s.queue[0]] else s.started,
       active := if pc.Claiming? then s.active + 1 else if pc.Finished? then s.active - 1 else s.active,
       exitMark := if pc'.Exited? then |s.submitted| else s.exitMark)
  }

  function Move(s: State, i: nat, pc: Pc): State
    requires i < |s.workers|
  {
    s.(workers := s.workers[i := pc])
  }

  /** A notify_all now would miss the only worker, which is about to sleep although there is work. */
  predicate Races(s: State) {
    s.queue != [] && |s.workers| == 1 && s.workers[0].Parking?
  }

  function Apply(s: State, e: Step): State
    requires Enabled(s, e)
  {
    match e
    case Push(t) => s.(queue := s.queue + [t], submitted := s.submitted + [t], notifies := s.notifies + 1)
    case Notify(w) =>
      s.(workers := Wake(s.workers, w), notifies := s.notifies - 1, raced := s.raced && !SomeParked(s.workers))
    case Spurious(w) => Move(s, w, Top).(raced := false)
    case Work(i) => WorkStep(s, i)
    case Finish(i, ok) =>
      if ok then Move(s, i, Finished).(completed := s.completed + 1)
      else Move(s, i, Finished).(failed := s.failed + 1)
    case NotifyIdle(i, w) => s.(workers := Wake(s.workers, w)[i := Top])
    case Pause => s.(paused := true, everPaused := true)
    case Resume => s.(paused := false, broadcasts := s.broadcasts + 1)
    case Broadcast => s.(workers := WakeAll(s.workers), broadcasts := s.broadcasts - 1, raced := Races(s))
    case RequestStop => s.(stop := true, paused := false, workers := WakeAll(s.workers), raced := false)
    case ClearQueue =>
      s.(queue := [], discarded := s.discarded + s.queue, cleared := true, active := 0, completed := 0, failed := 0)
  }

  /** `run` takes `s` to `t`. */
  predicate Leads(s: State, run: seq<Step>, t: State)
    decreases |run|
  {
    if run == [] then s == t
    else Enabled(s, run[0]) && Leads(Apply(s, run[0]), run[1..], t)
  }

  ghost predicate Reachable(t: State) {
    exists cap: nat, n: nat, run: seq<Step> :: n > 0 && Leads(Initial(cap, n), run, t)
  }

  // ------------------------------------------------------------------ counting

  function Count(ws: seq<Pc>, p: Pc -> bool): nat {
    if ws == [] then 0 else (if p(ws[0]) then 1 else 0) + Count(ws[1..], p)
  }

  lemma {:induction false} CountUpdate(ws: seq<Pc>, i: nat, pc: Pc, p: Pc -> bool)
    requires i < |ws|
    ensures Count(ws[i := pc], p) + (if p(ws[i]) then 1 else 0) == Count(ws, p) + (if p(pc) then 1 else 0)
  {
    if i == 0 {
      assert ws[0 := pc][1..] == ws[1..];
    } else {
      CountUpdate(ws[1..], i - 1, pc, p);
      assert ws[i := pc][1..] == ws[1..][i - 1 := pc];
    }
  }

  lemma {:induction false} CountWakeAll(ws: seq<Pc>, p: Pc -> bool)
    requires !p(Parked) && !p(Top)
    ensures Count(WakeAll(ws), p) == Count(ws, p)
  {
    if ws != [] {
      CountWakeAll(ws[1..], p);
      assert WakeAll(ws)[1..] == WakeAll(ws[1..]);
    }
  }

  lemma {:induction false} CountPositive(ws: seq<Pc>, p: Pc -> bool) returns (i: nat)
    requires Count(ws, p) > 0
    ensures i < |ws| && p(ws[i])
  {
    if p(ws[0]) {
      i := 0;
    } else {
      i := CountPositive(ws[1..], p);
      i := i + 1;
    }
  }

  lemma {:induction false} CountZero(ws: seq<Pc>, p: Pc -> bool)
    requires forall i :: 0 <= i < |ws| ==> !p(ws[i])
    ensures Count(ws, p) == 0
  {
    if ws != [] {
      CountZero(ws[1..], p);
    }
  }

  lemma CountWake(ws: seq<Pc>, w: nat, p: Pc -> bool)
    requires !p(Parked) && !p(Top)
    ensures Count(Wake(ws, w), p) == Count(ws, p)
  {
    if w < |ws| && ws[w].Parked? {
      CountUpdate(ws, w, Top, p);
    }
  }

  // ------------------------------------------------- steps other than Work

  /** How a step that is not the worker's own `Work` can move a worker. */
  predicate Nudged(a: Pc, b: Pc) {
    b == a || (a.Parked? && b.Top?) || (a.Running? && b.Finished?) || (a.Decremented? && b.Top?)
  }

  predicate AllNudged(ws: seq<Pc>, ws': seq<Pc>) {
    |ws'| == |ws| && forall j :: 0 <= j < |ws| ==> Nudged(ws[j], ws'[j])
  }

  lemma OtherSteps(s: State, e: Step)
    requires Enabled(s, e) && !e.Work?
    ensures AllNudged(s.workers, Apply(s, e).workers) && Apply(s, e).lock == s.lock
  {
    match e
    case Finish(i, ok) => NudgeOne(s.workers, i, Finished);
    case Spurious(w) => NudgeOne(s.workers, w, Top);
    case Notify(w) => NudgeWake(s.workers, w);
    case NotifyIdle(i, w) => NudgeIdle(s.workers, i, w);
    case Broadcast => NudgeAll(s.workers);
    case RequestStop => NudgeAll(s.workers);
    case Push(_) =>
    case Pause =>
    case Resume =>
    case ClearQueue =>
  }

  lemma NudgeOne(ws: seq<Pc>, i: nat, pc: Pc)
    requires i < |ws| && Nudged(ws[i], pc)
    ensures AllNudged(ws, ws[i := pc])
  {}

  lemma NudgeWake(ws: seq<Pc>, w: nat)
    ensures AllNudged(ws, Wake(ws, w))
  {}

  lemma NudgeIdle(ws: seq<Pc>, i: nat, w: nat)
    requires i < |ws| && ws[i].Decremented?
    ensures AllNudged(ws, Wake(ws, w)[i := Top])
  {}

  lemma NudgeAll(ws: seq<Pc>)
    ensures AllNudged(ws, WakeAll(ws))
  {}

  /** What steps other than `Work` and those of Stop leave alone. */
  predicate Alike(s: State, t: State) {
    && AllNudged(s.workers, t.workers) && t.lock == s.lock && t.cap == s.cap && t.stop == s.stop
    && t.active == s.active && s.queue <= t.queue && t.started == s.started && t.exitMark == s.exitMark
    && t.cleared == s.cleared && t.discarded == s.discarded
  }

  predicate OfStop(e: Step) { e.RequestStop? || e.ClearQueue? }

  lemma AlikeStep(s: State, e: Step)
    requires Enabled(s, e) && !e.Work? && !OfStop(e)
    ensures Alike(s, Apply(s, e))
    ensures !e.Push? ==> Apply(s, e).queue == s.queue && Apply(s, e).submitted == s.submitted
  {
    match e
    case Push(_) =>
    case Notify(w) => NudgeWake(s.workers, w);
    case Spurious(w) => NudgeOne(s.workers, w, Top);
    case Finish(i, _) => NudgeOne(s.workers, i, Finished);
    case NotifyIdle(i, w) => NudgeIdle(s.workers, i, w);
    case Pause =>
    case Resume =>
    case Broadcast => NudgeAll(s.workers);
  }
}
