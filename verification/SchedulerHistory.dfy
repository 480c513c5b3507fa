/**
 What the thread pool's state says about the run that led to it: which tasks were
 submitted, which have been run, how they ended, and that nothing runs after Stop.
 */
module SchedulerHistory {

  import opened SchedulerModel
  import opened SchedulerInvariant
  import opened Scheduler

  /** The tasks that were submitted in a run, in order. */
  function Pushed(run: seq<Step>): seq<Task> {
    if run == [] then [] else (if run[0].Push? then [run[0].task] else []) + Pushed(run[1..])
  }

  /** How many tasks returned, or threw. */
  function Ends(run: seq<Step>, ok: bool): nat {
    if run == [] then 0 else (if run[0].Finish? && run[0].ok == ok then 1 else 0) + Ends(run[1..], ok)
  }

  /** How often a task stands in a sequence. */
  function Times(tasks: seq<Task>, task: Task): nat {
    if tasks == [] then 0
    else Times(tasks[..|tasks| - 1], task) + if tasks[|tasks| - 1] == task then 1 else 0
  }

  lemma TimesSnoc(tasks: seq<Task>, last: Task, task: Task)
    ensures Times(tasks + [last], task) == Times(tasks, task) + if last == task then 1 else 0
  {
    assert (tasks + [last])[..|tasks|] == tasks;
  }

  /** Workers that are running the task. */
  function Runs(task: Task): Pc -> bool {
    pc => pc == Running(task)
  }

  /** How often the task came to an end in a run from `s`. */
  function Ended(s: State, run: seq<Step>, task: Task): nat
    decreases |run|
  {
    if run == [] || !Enabled(s, run[0]) then 0
    else EndedBy(s, run[0], task) + Ended(Apply(s, run[0]), run[1..], task)
  }

  function EndedBy(s: State, e: Step, task: Task): nat
    requires Enabled(s, e)
  {
    if e.Finish? && s.workers[e.worker] == Running(task) then 1 else 0
  }

  /** What a step starts, it has running; what it ends was running. */
  ghost predicate Balances(s: State, t: State, ended: nat, task: Task) {
    Times(t.started, task) + Count(s.workers, Runs(task))
    == Times(s.started, task) + Count(t.workers, Runs(task)) + ended
  }

  /** A worker's own step runs a task only by taking it from the queue. */
  lemma WorkRuns(s: State, i: nat, task: Task)
    requires Enabled(s, Work(i))
    ensures !Runs(task)(s.workers[i])
    ensures Runs(task)(NextPc(s, i)) <==> s.workers[i].Claiming? && s.queue[0] == task
  {}

  lemma WorkStarts(s: State, i: nat, t: State, pc: Pc)
    requires Enabled(s, Work(i)) && t == Apply(s, Work(i)) && pc == NextPc(s, i)
    ensures t.workers == s.workers[i := pc]
    ensures t.started == if s.workers[i].Claiming? then s.started + [s.queue[0]] else s.started
  {}

  lemma WorkBalances(s: State, i: nat, task: Task)
    requires Enabled(s, Work(i))
    ensures Balances(s, Apply(s, Work(i)), 0, task)
  {
    var t, pc := Apply(s, Work(i)), NextPc(s, i);
    WorkStarts(s, i, t, pc);
    WorkRuns(s, i, task);
    TakenBalances(s, t, i, pc, task);
  }

  lemma TakenBalances(s: State, t: State, i: nat, pc: Pc, task: Task)
    requires i < |s.workers| && t.workers == s.workers[i := pc]
    requires s.workers[i].Claiming? ==> s.queue != []
    requires t.started == if s.workers[i].Claiming? then s.started + [s.queue[0]] else s.started
    requires !Runs(task)(s.workers[i])
    requires Runs(task)(pc) <==> s.workers[i].Claiming? && s.queue[0] == task
    ensures Balances(s, t, 0, task)
  {
    CountUpdate(s.workers, i, pc, Runs(task));
    if s.workers[i].Claiming? {
      TimesSnoc(s.started, s.queue[0], task);
    }
  }

  lemma FinishBalances(s: State, i: nat, ok: bool, task: Task)
    requires Enabled(s, Finish(i, ok))
    ensures Balances(s, Apply(s, Finish(i, ok)), EndedBy(s, Finish(i, ok), task), task)
  {
    CountUpdate(s.workers, i, Finished, Runs(task));
  }

  lemma IdleBalances(s: State, i: nat, w: nat, task: Task)
    requires Enabled(s, NotifyIdle(i, w))
    ensures Balances(s, Apply(s, NotifyIdle(i, w)), 0, task)
  {
    CountWake(s.workers, w, Runs(task));
    CountUpdate(Wake(s.workers, w), i, Top, Runs(task));
  }

  lemma BalancesStep(s: State, e: Step, task: Task)
    requires Enabled(s, e)
    ensures Balances(s, Apply(s, e), EndedBy(s, e, task), task)
  {
    match e
    case Work(i) => WorkBalances(s, i, task);
    case Finish(i, ok) => FinishBalances(s, i, ok, task);
    case Notify(w) => CountWake(s.workers, w, Runs(task));
    case Spurious(w) => CountUpdate(s.workers, w, Top, Runs(task));
    case NotifyIdle(i, w) => IdleBalances(s, i, w, task);
    case Broadcast => CountWakeAll(s.workers, Runs(task));
    case RequestStop => CountWakeAll(s.workers, Runs(task));
    case Push(_) =>
    case Pause =>
    case Resume =>
    case ClearQueue =>
  }

  lemma {:induction false} BalancesRun(s: State, run: seq<Step>, t: State, task: Task)
    requires Leads(s, run, t)
    ensures Balances(s, t, Ended(s, run, task), task)
    decreases |run|
  {
    if run != [] {
      BalancesStep(s, run[0], task);
      BalancesRun(Apply(s, run[0]), run[1..], t, task);
    }
  }

  lemma CountStep(s: State, e: Step)
    requires Enabled(s, e) && !e.ClearQueue?
    ensures var t := Apply(s, e);
            && t.completed == s.completed + (if e.Finish? && e.ok then 1 else 0)
            && t.failed == s.failed + (if e.Finish? && !e.ok then 1 else 0)
            && t.submitted == s.submitted + (if e.Push? then [e.task] else [])
  {
    match e
    case Work(_) =>
    case Finish(_, _) =>
    case Notify(_) =>
    case Spurious(_) =>
    case NotifyIdle(_, _) =>
    case Broadcast =>
    case RequestStop =>
    case Push(_) =>
    case Pause =>
    case Resume =>
  }

  lemma {:induction false} CountRun(s: State, run: seq<Step>, t: State)
    requires Leads(s, run, t) && ClearQueue !in run
    ensures t.completed == s.completed + Ends(run, true) && t.failed == s.failed + Ends(run, false)
    ensures t.submitted == s.submitted + Pushed(run)
    decreases |run|
  {
    if run != [] {
      assert run == [run[0]] + run[1..];
      CountStep(s, run[0]);
      CountRun(Apply(s, run[0]), run[1..], t);
    }
  }

  lemma {:induction false} NotClearedRun(s: State, run: seq<Step>, t: State)
    requires Leads(s, run, t) && ClearQueue !in run
    ensures t.cleared == s.cleared
    decreases |run|
  {
    if run != [] {
      assert run == [run[0]] + run[1..];
      NotClearedStep(s, run[0]);
      NotClearedRun(Apply(s, run[0]), run[1..], t);
    }
  }

  lemma NotClearedStep(s: State, e: Step)
    requires Enabled(s, e) && !e.ClearQueue?
    ensures Apply(s, e).cleared == s.cleared
  {
    match e
    case Work(_) =>
    case Finish(_, _) =>
    case Notify(_) =>
    case Spurious(_) =>
    case NotifyIdle(_, _) =>
    case Broadcast =>
    case RequestStop =>
    case Push(_) =>
    case Pause =>
    case Resume =>
  }

  /**
   The whole history of a pool before Stop empties its queue: the tasks submitted are those started,
   in order, and those still queued; each one is being run or has ended as often as it was started;
   and the counters tell the ones that returned from the ones that threw.
   */
  lemma EveryTaskAccounted(cap: nat, n: nat, run: seq<Step>, t: State, task: Task)
    requires n > 0 && Leads(Initial(cap, n), run, t) && ClearQueue !in run
    ensures t.started + t.queue == Pushed(run)
    ensures Times(t.started, task) == Count(t.workers, Runs(task)) + Ended(Initial(cap, n), run, task)
    ensures t.completed == Ends(run, true) && t.failed == Ends(run, false)
  {
    var s := Initial(cap, n);
    CountRun(s, run, t);
    NotClearedRun(s, run, t);
    BalancesRun(s, run, t, task);
    CountZero(s.workers, Runs(task));
    assert Reachable(t);
    FifoConservationAndCap(t);
    assert [] + Pushed(run) == Pushed(run);
  }

  lemma ExitedStep(s: State, e: Step)
    requires AllExited(s.workers) && Enabled(s, e)
    ensures AllExited(Apply(s, e).workers) && Apply(s, e).started == s.started
    ensures Apply(s, e).completed <= s.completed && Apply(s, e).failed <= s.failed
  {
    match e
    case Push(_) =>
    case Notify(_) =>
    case Pause =>
    case Resume =>
    case Broadcast =>
    case RequestStop =>
    case ClearQueue =>
  }

  lemma {:induction false} ExitedRun(s: State, run: seq<Step>, t: State)
    requires AllExited(s.workers) && Leads(s, run, t)
    ensures AllExited(t.workers) && t.started == s.started && t.completed <= s.completed && t.failed <= s.failed
    decreases |run|
  {
    if run != [] {
      ExitedStep(s, run[0]);
      ExitedRun(Apply(s, run[0]), run[1..], t);
    }
  }

  /**
   Once Stop has emptied the queue nothing is started any more, and the counters stay at zero: a task
   submitted afterwards is taken in silently and never run.
   */
  lemma NothingAfterStop(s: State, run: seq<Step>, t: State)
    requires Enabled(s, ClearQueue) && Leads(Apply(s, ClearQueue), run, t)
    ensures t.started == s.started && t.completed == 0 && t.failed == 0
    ensures ClearQueue !in run ==> t.queue == Pushed(run)
  {
    var u := Apply(s, ClearQueue);
    ExitedRun(u, run, t);
    if ClearQueue !in run {
      QueueGrows(u, run, t);
      assert [] + Pushed(run) == Pushed(run);
    }
  }

  lemma {:induction false} QueueGrows(s: State, run: seq<Step>, t: State)
    requires AllExited(s.workers) && Leads(s, run, t) && ClearQueue !in run
    ensures t.queue == s.queue + Pushed(run)
    decreases |run|
  {
    if run != [] {
      assert run == [run[0]] + run[1..];
      ExitedStep(s, run[0]);
      QueueStep(s, run[0]);
      QueueGrows(Apply(s, run[0]), run[1..], t);
    }
  }

  lemma QueueStep(s: State, e: Step)
    requires AllExited(s.workers) && Enabled(s, e) && !e.ClearQueue?
    ensures Apply(s, e).queue == s.queue + (if e.Push? then [e.task] else [])
  {
    match e
    case Push(_) =>
    case Notify(_) =>
    case Pause =>
    case Resume =>
    case Broadcast =>
    case RequestStop =>
  }
}
