/** The embedded task executor (src/task/executor.rs): a spawned future is
    polled on the completion-queue thread, and a four-state machine decides
    whether a wake-up schedules a poll.

    Two views are modelled. `PollTask` is the `poll` loop of one poller run
    sequentially against a script saying what each poll of the future
    returns and whether a notification arrived during it. `System` is the
    interleaving view: pollers advance one atomic step at a time and
    notifications arrive between any two of those steps. */
module Executor {
  import opened Wrappers
  import opened Grpc

  datatype TaskState = Notified | Idle | Polling | Completed

  /** The `u8` constants stored in the atomic state. */
  function Code(s: TaskState): (c: nat)
    ensures 1 <= c <= 4
    ensures s == Notified <==> c == 1
    ensures s == Idle <==> c == 2
    ensures s == Polling <==> c == 3
    ensures s == Completed <==> c == 4
  {
    match s
    case Notified => 1
    case Idle => 2
    case Polling => 3
    case Completed => 4
  }

  lemma CodesAreDistinct(a: TaskState, b: TaskState)
    ensures Code(a) == Code(b) <==> a == b
  {
  }

  /** `SpawnTask`: its state and whether it still owns the future
      (`handle` is `Some`). */
  datatype Task = Task(state: TaskState, handle: bool)

  /** `SpawnTask::new`. */
  function NewTask(): (t: Task)
    ensures t.state == Idle && t.handle
  {
    Task(Idle, true)
  }

  /** The answer of an atomic compare-and-exchange. */
  datatype Cas = Exchanged | Observed(actual: TaskState)

  function CompareExchange(cur: TaskState, expected: TaskState, desired: TaskState): (r: (TaskState, Cas))
    ensures cur == expected ==> r == (desired, Exchanged)
    ensures cur != expected ==> r == (cur, Observed(cur))
  {
    if cur == expected then (desired, Exchanged) else (cur, Observed(cur))
  }

  /** `mark_notified`, run without interference. The loop's `continue` arms
      are taken only when another thread changes the state between two
      exchanges; in the interleaving view below that shows up as the
      notification taking effect at a later step. */
  function MarkNotified(s: TaskState): (r: (TaskState, bool))
    ensures r.1 <==> s == Idle
    ensures s == Idle || s == Polling ==> r.0 == Notified
    ensures s == Notified || s == Completed ==> r.0 == s
  {
    var (s1, r1) := CompareExchange(s, Idle, Notified);
    if r1.Exchanged? then (s1, true)
    else if r1.actual == Polling then (CompareExchange(s1, Polling, Notified).0, false)
    else (s1, false)
  }

  /** `Notify::notify`: the wake-up is deferred to the work queue only when
      `mark_notified` reports the idle-to-notified transition. */
  function Notify(t: Task): (r: (Task, bool))
    ensures r.1 <==> t.state == Idle
    ensures r.0.handle == t.handle
    ensures r.0.state == MarkNotified(t.state).0
  {
    var (s, pushed) := MarkNotified(t.state);
    (t.(state := s), pushed)
  }

  /** The answer of the kick that wakes the queue for deferred work: a
      shut-down queue is ignored, any other error is fatal. */
  function KickTolerated(r: Result<(), Error>): (ok: bool)
    ensures ok <==> r.Success? || r.error == QueueShutdown
  {
    match r
    case Success(_) => true
    case Failure(QueueShutdown) => true
    case Failure(_) => false
  }

  /** How `notify` ends: nothing scheduled, the task queued on the current
      thread's work queue, the queue kicked for it, or a panic on a kick
      error. */
  datatype NotifyEnd = NotScheduled | Queued | Kicked | KickPanic

  /** `WorkQueue::notify` with its scheduling: `handedBack` says whether
      `push_work` returned the work (the notify came from another thread),
      and `kick` is the answer of the kick then sent. */
  function NotifyWork(t: Task, handedBack: bool, kick: Result<(), Error>): (r: (Task, NotifyEnd))
    ensures r.0 == Notify(t).0
    ensures r.1 == NotScheduled <==> t.state != Idle
    ensures r.1 == Queued <==> t.state == Idle && !handedBack
    ensures r.1 == Kicked <==> t.state == Idle && handedBack && (kick.Success? || kick.error == QueueShutdown)
    ensures r.1 == KickPanic <==> t.state == Idle && handedBack && kick.Failure? && kick.error != QueueShutdown
  {
    var (t', marked) := Notify(t);
    if !marked then (t', NotScheduled)
    else if !handedBack then (t', Queued)
    else if KickTolerated(kick) then (t', Kicked)
    else (t', KickPanic)
  }

  /** What one poll of the boxed future returns. */
  datatype FutureOutcome = FutReady | FutNotReady | FutError

  /** One poll of the future in the script: its outcome and whether the
      future was notified while it was being polled. */
  datatype PollStep = PollStep(outcome: FutureOutcome, notifiedDuring: bool)

  /** How a `poll` call ends: it returns, it panics on an unexpected state,
      or the script does not say what the next poll of the future returns. */
  datatype LoopEnd = Returned | Panicked | ScriptEnded

  /** A poll after which the loop goes round again. */
  predicate Repolls(p: PollStep) {
    p.outcome == FutNotReady && p.notifiedDuring
  }

  /** The index of the first poll after which the loop does not go round
      again, or the script's length. */
  function StopIndex(script: seq<PollStep>): (k: nat)
    ensures k <= |script|
    ensures forall j :: 0 <= j < k ==> Repolls(script[j])
    ensures k < |script| ==> !Repolls(script[k])
    decreases |script|
  {
    if |script| == 0 || !Repolls(script[0]) then 0 else 1 + StopIndex(script[1..])
  }

  lemma StopIndexUnique(script: seq<PollStep>, k: nat)
    requires k <= |script|
    requires forall j :: 0 <= j < k ==> Repolls(script[j])
    requires k < |script| ==> !Repolls(script[k])
    ensures StopIndex(script) == k
  {
  }

  /** `poll(cq, task, woken)`. A task that is already completed is left
      alone; any other state than the expected one is fatal. Otherwise the
      future is polled once, then once more after every poll that returned
      not-ready while a notification arrived, so polls never overlap: the
      loop ends completed after ready or error, or idle after a quiet
      not-ready. */
  method PollTask(task: Task, woken: bool, script: seq<PollStep>) returns (t: Task, polls: nat, end: LoopEnd)
    ensures task.state == Completed ==> t == task && polls == 0 && end == Returned
    ensures task.state != Completed && (task.state != (if woken then Notified else Idle) || !task.handle) ==>
              polls == 0 && end == Panicked
    ensures task.state == (if woken then Notified else Idle) && task.handle ==>
              var k := StopIndex(script);
              && end != Panicked
              && (k == |script| ==> end == ScriptEnded && polls == k && t == Task(Polling, true))
              && (k < |script| ==> end == Returned && polls == k + 1)
              && (k < |script| && script[k].outcome != FutNotReady ==> t == Task(Completed, false))
              && (k < |script| && script[k].outcome == FutNotReady ==> t == Task(Idle, true))
  {
    var init := if woken then Notified else Idle;
    t := task;
    polls := 0;
    var i := 0;
    while true
      invariant 0 <= i <= |script| && polls == i
      invariant init == Idle || init == Notified
      invariant forall j :: 0 <= j < i - 1 ==> Repolls(script[j])
      invariant i == 0 ==> t == task && init == (if woken then Notified else Idle)
      invariant i > 0 ==> task.state == (if woken then Notified else Idle) && task.handle
      invariant i > 0 ==>
                  || (Repolls(script[i - 1]) && t == Task(Notified, true) && init == Notified)
                  || (script[i - 1].outcome != FutNotReady && t == Task(Completed, false))
      decreases |script| - i
    {
      var (s1, r1) := CompareExchange(t.state, init, Polling);
      if r1.Observed? {
        end := if r1.actual == Completed then Returned else Panicked;
        if i > 0 {
          StopIndexUnique(script, i - 1);
        }
        return;
      }
      if !t.handle {
        end := Panicked;
        return;
      }
      t := t.(state := s1);
      if i == |script| {
        StopIndexUnique(script, i);
        end := ScriptEnded;
        return;
      }
      var step := script[i];
      i := i + 1;
      polls := polls + 1;
      if step.notifiedDuring {
        t := t.(state := MarkNotified(t.state).0);
      }
      if step.outcome != FutNotReady {
        t := Task(Completed, false);
      } else {
        var (s2, r2) := CompareExchange(t.state, Polling, Idle);
        if r2.Exchanged? {
          t := t.(state := s2);
          StopIndexUnique(script, i - 1);
          end := Returned;
          return;
        } else if r2.actual == Notified {
          init := Notified;
        } else {
          assert false;
        }
      }
    }
  }

  /** `Executor::spawn`: a new idle task polled once inline. */
  method Spawn(script: seq<PollStep>) returns (t: Task, polls: nat, end: LoopEnd)
    ensures end != Panicked
    ensures |script| > 0 ==> polls >= 1
    ensures StopIndex(script) < |script| ==> end == Returned
    ensures |script| > 0 && !Repolls(script[0]) ==> polls == 1
    ensures end == Returned ==> t.state == Idle || t == Task(Completed, false)
  {
    t, polls, end := PollTask(NewTask(), false, script);
  }

  /** `resolve`: deferred work is always delivered with success; a failed
      delivery is fatal. */
  method Resolve(task: Task, success: bool, script: seq<PollStep>) returns (t: Task, polls: nat, end: LoopEnd)
    ensures !success ==> end == Panicked && t == task && polls == 0
    ensures success && task.state == Completed ==> t == task && end == Returned && polls == 0
    ensures success && task.state != Completed && (task.state != Notified || !task.handle) ==>
              polls == 0 && end == Panicked
    ensures success && task == Task(Notified, true) ==>
              var k := StopIndex(script);
              && end != Panicked
              && (k == |script| ==> end == ScriptEnded && polls == k && t == Task(Polling, true))
              && (k < |script| ==> end == Returned && polls == k + 1)
              && (k < |script| && script[k].outcome != FutNotReady ==> t == Task(Completed, false))
              && (k < |script| && script[k].outcome == FutNotReady ==> t == Task(Idle, true))
  {
    if !success {
      t, polls, end := task, 0, Panicked;
      return;
    }
    t, polls, end := PollTask(task, true, script);
  }

  /** The interleaving view. A poller's program counter: before the
      exchange into `POLLING` (with the state it expects), inside the poll
      of the future, after it (before the exchange back to `IDLE`), done,
      or panicked. */
  datatype Pc = Start(init: TaskState) | InPoll(init: TaskState) | AfterPoll(init: TaskState) | Finished | Panic

  predicate Live(pc: Pc) {
    pc.Start? || pc.InPoll? || pc.AfterPoll?
  }

  /** A poller that is inside the critical section of `poll`. */
  predicate Polls(pc: Pc) {
    pc.InPoll? || pc.AfterPoll?
  }

  /** The task, every poller started so far, the deferred work items not
      yet run, and how many times the future has been polled. */
  datatype System = System(task: Task, pollers: seq<Pc>, queue: nat, polls: nat)

  datatype Event =
    | NotifyTask                        // a wake-up from any thread
    | RunDeferred                       // the queue thread runs one deferred item
    | Advance(i: nat, outcome: FutureOutcome)  // poller i takes one atomic step

  /** One atomic step of a poller; the flag says whether the future was
      polled in it. */
  function AgentStep(t: Task, pc: Pc, o: FutureOutcome): (r: (Task, Pc, bool))
    ensures r.2 <==> pc.InPoll? && t.handle
  {
    match pc
    case Start(init) =>
      var (s, c) := CompareExchange(t.state, init, Polling);
      if c.Exchanged? then (t.(state := s), InPoll(init), false)
      else if c.actual == Completed then (t, Finished, false)
      else (t, Panic, false)
    case InPoll(init) =>
      if !t.handle then (t, Panic, false)
      else if o != FutNotReady then (Task(Completed, false), Start(init), true)
      else (t, AfterPoll(init), true)
    case AfterPoll(init) =>
      var (s, c) := CompareExchange(t.state, Polling, Idle);
      if c.Exchanged? then (t.(state := s), Finished, false)
      else if c.actual == Notified then (t, Start(Notified), false)
      else (t, Panic, false)
    case Finished => (t, pc, false)
    case Panic => (t, pc, false)
  }

  function Next(s: System, e: Event): System {
    match e
    case NotifyTask =>
      var (t, pushed) := Notify(s.task);
      s.(task := t, queue := s.queue + if pushed then 1 else 0)
    case RunDeferred =>
      if s.queue == 0 then s
      else s.(queue := s.queue - 1, pollers := s.pollers + [Start(Notified)])
    case Advance(i, o) =>
      if i >= |s.pollers| then s
      else
        var (t, pc, polled) := AgentStep(s.task, s.pollers[i], o);
        s.(task := t, pollers := s.pollers[i := pc], polls := s.polls + if polled then 1 else 0)
  }

  function Run(s: System, es: seq<Event>): System
    decreases |es|
  {
    if |es| == 0 then s else Run(Next(s, es[0]), es[1..])
  }

  /** The system right after `spawn`'s first exchange. No wake-up can come
      earlier: the notify handle is handed to the future only while it is
      being polled. */
  function Spawned(): (s: System)
    ensures |s.pollers| == 1
    ensures AgentStep(NewTask(), Start(Idle), FutNotReady) == (s.task, s.pollers[0], false)
  {
    System(Task(Polling, true), [InPoll(Idle)], 0, 0)
  }

  ghost predicate Consistent(pc: Pc, st: TaskState) {
    match pc
    case Start(init) => (init == Idle || init == Notified) && (st == Completed || (init == Notified && st == Notified))
    case InPoll(init) => (init == Idle || init == Notified) && (st == Polling || st == Notified)
    case AfterPoll(init) => (init == Idle || init == Notified) && (st == Polling || st == Notified)
    case Finished => true
    case Panic => false
  }

  ghost predicate NoneLive(ps: seq<Pc>) {
    forall i :: 0 <= i < |ps| ==> !Live(ps[i])
  }

  /** At most one poller is live, none while deferred work is queued, each
      live poller agrees with the task state, the future is owned until
      completion, and with nothing scheduled the task rests idle or
      completed. */
  ghost predicate Inv(s: System) {
    && s.queue <= 1
    && (forall i, j :: 0 <= i < |s.pollers| && 0 <= j < |s.pollers| && i != j && Live(s.pollers[i]) ==> !Live(s.pollers[j]))
    && (s.queue == 1 ==> NoneLive(s.pollers) && s.task.state == Notified)
    && (forall i :: 0 <= i < |s.pollers| ==> Consistent(s.pollers[i], s.task.state))
    && (s.task.handle <==> s.task.state != Completed)
    && (s.queue == 0 && NoneLive(s.pollers) ==> s.task.state == Idle || s.task.state == Completed)
  }

  lemma SpawnedSatisfiesInv()
    ensures Inv(Spawned())
  {
  }

  lemma NextPreservesInv(s: System, e: Event)
    requires Inv(s)
    ensures Inv(Next(s, e))
  {
    match e
    case NotifyTask =>
      if s.task.state == Idle {
        assert NoneLive(s.pollers) by {
          forall i | 0 <= i < |s.pollers| ensures !Live(s.pollers[i]) {
            assert Consistent(s.pollers[i], s.task.state);
          }
        }
      }
    case RunDeferred =>
      if s.queue > 0 {
        var s' := Next(s, e);
        assert forall i :: 0 <= i < |s.pollers| ==> s'.pollers[i] == s.pollers[i];
        assert Live(s'.pollers[|s.pollers|]);
      }
    case Advance(i, o) =>
      if i < |s.pollers| {
        var s' := Next(s, e);
        assert forall j :: 0 <= j < |s.pollers| && j != i ==> s'.pollers[j] == s.pollers[j];
        if Live(s.pollers[i]) {
          assert s.queue == 0;
          assert Consistent(s.pollers[i], s.task.state);
          var (t, pc, polled) := AgentStep(s.task, s.pollers[i], o);
          assert s'.pollers[i] == pc && s'.task == t;
          assert Consistent(pc, t.state);
          assert !Live(pc) ==> t.state == Idle || t.state == Completed;
        } else {
          assert s' == s;
        }
      }
  }

  lemma {:induction false} RunPreservesInv(s: System, es: seq<Event>)
    requires Inv(s)
    ensures Inv(Run(s, es))
    decreases |es|
  {
    if |es| > 0 {
      NextPreservesInv(s, es[0]);
      RunPreservesInv(Next(s, es[0]), es[1..]);
    }
  }

  /** Whatever the interleaving of wake-ups, deferred work and poll steps
      after a spawn, no poller panics on an unexpected state and no two
      pollers are ever inside `poll` of the same future at once. */
  lemma NeverOverlapping(es: seq<Event>)
    ensures var s := Run(Spawned(), es);
            && (forall i :: 0 <= i < |s.pollers| ==> !s.pollers[i].Panic?)
            && (forall i, j :: 0 <= i < |s.pollers| && 0 <= j < |s.pollers| && i != j && Polls(s.pollers[i]) ==> !Polls(s.pollers[j]))
  {
    SpawnedSatisfiesInv();
    RunPreservesInv(Spawned(), es);
    var s := Run(Spawned(), es);
    forall i | 0 <= i < |s.pollers| ensures !s.pollers[i].Panic? {
      assert Consistent(s.pollers[i], s.task.state);
    }
  }

  /** A wake-up while the future is being polled schedules nothing, and the
      poller that is inside goes round again instead of going idle. */
  lemma NotifyDuringPollingRepolls(s: System, i: nat, init: TaskState)
    requires Inv(s) && i < |s.pollers| && s.pollers[i] == InPoll(init)
    ensures var s1 := Next(s, NotifyTask);
            var s2 := Next(s1, Advance(i, FutNotReady));
            var s3 := Next(s2, Advance(i, FutNotReady));
            var s4 := Next(s3, Advance(i, FutNotReady));
            && s1.queue == s.queue == 0
            && s1.task.state == Notified
            && s2.polls == s.polls + 1
            && s3.pollers[i] == Start(Notified)
            && s4.pollers[i] == InPoll(Notified)
            && s4.task.state == Polling
  {
    assert Consistent(s.pollers[i], s.task.state);
  }

  /** A wake-up while the task is idle and unscheduled defers exactly one
      work item. */
  lemma NotifyIdleDefersOnce(s: System)
    requires Inv(s) && s.queue == 0 && s.task.state == Idle
    ensures Next(s, NotifyTask).queue == 1
    ensures Next(Next(s, NotifyTask), NotifyTask).queue == 1
  {
  }

  /** A wake-up of a completed or already-notified task changes nothing. */
  lemma NotifyIgnoredWhenNotifiedOrCompleted(s: System)
    requires s.task.state == Notified || s.task.state == Completed
    ensures Next(s, NotifyTask) == s
  {
  }

  /** No spurious polls: once the task rests idle with nothing scheduled,
      the future is not polled again until it is notified. */
  lemma {:induction false} QuietTaskIsNotPolled(s: System, es: seq<Event>)
    requires Inv(s) && s.queue == 0 && NoneLive(s.pollers) && s.task.state == Idle
    requires forall k :: 0 <= k < |es| ==> !es[k].NotifyTask?
    ensures Run(s, es) == s
    decreases |es|
  {
    if |es| > 0 {
      match es[0] {
        case RunDeferred =>
        case Advance(i, o) =>
          if i < |s.pollers| {
            assert !Live(s.pollers[i]);
            assert Consistent(s.pollers[i], s.task.state);
            assert s.pollers[i := s.pollers[i]] == s.pollers;
          }
      }
      assert forall k :: 0 <= k < |es[1..]| ==> !es[1..][k].NotifyTask? by {
        forall k | 0 <= k < |es[1..]| ensures !es[1..][k].NotifyTask? {
          assert es[1..][k] == es[k + 1];
        }
      }
      QuietTaskIsNotPolled(s, es[1..]);
    }
  }
}
