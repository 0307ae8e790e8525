/** The scheduler object itself: its fields, updated in place, follow the state machine. */
module Scheduling {
  import opened Common
  import opened Lists
  import opened SchedulerSpec
  import opened SchedulerLaws
  import S = SchedulerSpec

  class Scheduler {
    /** The global thread table. */
    var threads: Table
    var nextTid: nat

    var queues: seq<seq<nat>>
    var current: Option<nat>
    var idle: Option<nat>
    var timeSliceRemaining: nat
    var totalTicks: nat

    ghost var retired: nat
    ghost var unclaimed: nat

    ghost function Now(): State
      reads this
    {
      State(threads, nextTid, queues, current, idle, timeSliceRemaining, totalTicks, retired, unclaimed)
    }

    ghost predicate Valid()
      reads this
    {
      Inv(Now()) && Accounts(Now())
    }

    constructor ()
      ensures Valid() && Now() == START
    {
      threads, nextTid := [], 1;
      queues := [[], [], [], [], []];
      current, idle := None, None;
      timeSliceRemaining, totalTicks := 0, 0;
      retired, unclaimed := 0, 0;
      new;
      StartOk();
    }

    /** RunQueue::enqueue */
    method Enqueue(t: nat, p: Level)
      requires |queues| == LEVELS
      modifies this`queues
      ensures queues == S.Enqueue(old(queues), t, p)
    {
      if t !in queues[p] {
        queues := queues[p := queues[p] + [t]];
      }
    }

    /** RunQueue::pick_next: the front of the highest non-empty queue, or the idle thread. */
    method PickNext() returns (r: Option<nat>)
      requires |queues| == LEVELS
      modifies this`queues
      ensures var l := Top(old(queues), LEVELS);
        if l.Some? then r == Some(old(queues)[l.value][0]) && queues == old(queues)[l.value := old(queues)[l.value][1..]]
        else r == idle && queues == old(queues)
    {
      var i := LEVELS;
      while i > 0
        invariant 0 <= i <= LEVELS && queues == old(queues) && Top(queues, LEVELS) == Top(queues, i)
      {
        i := i - 1;
        if queues[i] != [] {
          r := Some(queues[i][0]);
          queues := queues[i := queues[i][1..]];
          return;
        }
      }
      r := idle;
    }

    /** schedule: the current thread keeps the CPU while its slice lasts; otherwise the next one
        is dispatched. Nothing is returned only if nothing can run. */
    method Schedule() returns (r: Option<nat>)
      requires Valid()
      modifies this
      ensures Valid() && old(|queues|) == LEVELS && Now() == S.Schedule(old(Now()))
      ensures r.Some? ==> r == current
      ensures r.None? ==> idle.None? && forall t: nat :: !IsIn(threads, t, Ready) && !IsIn(threads, t, Running)
    {
      hide QueuesOk, OneRunning, ThreadsOk, CurrentOk, S.Enqueue, Top, Charged, Slice;
      ScheduleOk(Now());
      QueuesCount(Now());
      ScheduleCharged(Now());
      if timeSliceRemaining > 0 && current.Some? && current.value < |threads| && threads[current.value].Some?
         && threads[current.value].value.state == Running
      {
        return current;
      }
      ghost var s := Now();
      EnqueueLevels(s);
      RequeueOk(s);
      if current.Some? && current.value < |threads| && threads[current.value].Some?
         && threads[current.value].value.state == Running
      {
        var th := threads[current.value].value;
        threads := threads[current.value := Some(th.(state := Ready))];
        Enqueue(current.value, th.priority);
      }
      assert Now() == Requeue(s);
      ghost var u := Now();
      r := PickNext();
      if r.None? {
        NothingReady(u);
        return;
      }
      if r.value < |threads| && threads[r.value].Some? {
        var th := threads[r.value].value;
        threads := threads[r.value := Some(th.(state := Running))];
        timeSliceRemaining := th.timeSlice;
      }
      current := r;
    }

    /** tick */
    method Tick()
      requires Valid()
      modifies this
      ensures Valid() && Now() == S.Tick(old(Now()))
    {
      hide QueuesOk, OneRunning, ThreadsOk, CurrentOk, Charged, Slice;
      TickOk(Now());
      TickCharged(Now());
      totalTicks := totalTicks + 1;
      if timeSliceRemaining > 0 { timeSliceRemaining := timeSliceRemaining - 1; }
      if current.Some? && current.value < |threads| && threads[current.value].Some? {
        var th := threads[current.value].value;
        threads := threads[current.value := Some(th.(cpuTime := th.cpuTime + 1))];
      } else {
        unclaimed := unclaimed + 1;
      }
    }

    /** timer_interrupt_handler */
    method TimerInterrupt()
      requires Valid()
      modifies this
      ensures Valid() && old(|queues|) == LEVELS && Now() == Step(old(Now()), Timer)
    {
      hide Inv, Accounts, S.Schedule;
      QueuesFive(Now());
      Tick();
      var _ := Schedule();
    }

    /** yield_current */
    method YieldCurrent()
      requires Valid()
      modifies this
      ensures Valid() && old(|queues|) == LEVELS && Now() == Step(old(Now()), Yield)
      ensures Now() == old(Now()).(remaining := 0)
    {
      hide Charged, QueuesOk, OneRunning, ThreadsOk;
      StepOk(Now(), Yield);
      timeSliceRemaining := 0;
    }

    /** block_current */
    method BlockCurrent()
      requires Valid()
      modifies this
      ensures Valid() && old(|queues|) == LEVELS && Now() == Step(old(Now()), Block)
      ensures current == None && queues == old(queues)
      ensures old(current.Some? && At(threads, current.value).Some?) ==>
                IsIn(threads, old(current.value), Blocked) && threads == old(threads)[old(current.value) := threads[old(current.value)]]
    {
      hide Inv, Accounts;
      StepOk(Now(), Block);
      AccountsKept(Now(), Block);
      if current.Some? {
        if current.value < |threads| && threads[current.value].Some? {
          threads := threads[current.value := Some(threads[current.value].value.(state := Blocked))];
        }
        current := None;
      }
    }

    /** unblock_thread */
    method UnblockThread(t: nat)
      requires Valid()
      modifies this
      ensures Valid() && old(|queues|) == LEVELS && Now() == Step(old(Now()), Unblock(t))
      ensures t < |old(threads)| && old(threads)[t].Some? && old(threads)[t].value.state == Blocked ==>
        var th := old(threads)[t].value;
        && threads == old(threads)[t := Some(th.(state := Ready))]
        && queues == old(queues)[th.priority := old(queues)[th.priority] + [t]]
    {
      hide Inv, Accounts, S.Enqueue;
      if At(threads, t).Some? { UnblockMakesReady(Now(), t, At(threads, t).value); }
      StepOk(Now(), Unblock(t));
      AccountsKept(Now(), Unblock(t));
      if t < |threads| && threads[t].Some? && threads[t].value.state == Blocked {
        var th := threads[t].value;
        threads := threads[t := Some(th.(state := Ready))];
        Enqueue(t, th.priority);
      }
    }

    /** ThreadTable::add_thread: the table grows until it has room for `t`. */
    method AddToTable(t: nat, th: Thread)
      modifies this`threads
      ensures threads == Added(old(threads), t, th)
    {
      while |threads| <= t
        invariant |old(threads)| <= |threads| && (|threads| <= t + 1 || threads == old(threads))
        invariant threads == old(threads) + seq(|threads| - |old(threads)|, _ => None)
        decreases t - |threads|
      {
        threads := threads + [None];
      }
      threads := threads[t := Some(th)];
      if |old(threads)| <= t {
        assert threads == old(threads) + seq(t - |old(threads)|, _ => None) + [Some(th)];
      }
    }

    /** create_thread followed by add_thread, as fork and clone do: the new thread is ready, so it
        is queued at once. */
    method SpawnThread(p: Level) returns (t: nat)
      requires Valid()
      modifies this
      ensures Valid() && old(|queues|) == LEVELS && Now() == Step(old(Now()), Spawn(p))
      ensures old(At(threads, t)).None? && IsIn(threads, t, Ready)
    {
      hide Inv, Accounts, S.Enqueue, Slice, Added;
      StepOk(Now(), Spawn(p));
      AccountsKept(Now(), Spawn(p));
      FreshTid(Now());
      AddChanges(threads, nextTid, NewThread(p));
      t := nextTid;
      nextTid := nextTid + 1;
      AddToTable(t, NewThread(p));
      AddThread(t);
    }

    /** Scheduler::add_thread: only a runnable thread of the table is queued. */
    method AddThread(t: nat)
      requires |queues| == LEVELS
      modifies this`queues
      ensures queues == if IsIn(threads, t, Ready) || IsIn(threads, t, Running)
                        then S.Enqueue(old(queues), t, At(threads, t).value.priority) else old(queues)
    {
      if t < |threads| && threads[t].Some? && (threads[t].value.state == Ready || threads[t].value.state == Running) {
        Enqueue(t, threads[t].value.priority);
      }
    }

    /** create_thread followed by set_idle_thread. */
    method SpawnIdleThread(p: Level) returns (t: nat)
      requires Valid() && idle.None?
      modifies this
      ensures Valid() && old(|queues|) == LEVELS && Now() == Step(old(Now()), SpawnIdle(p)) && idle == Some(t)
    {
      hide Inv, Accounts, Slice, Added;
      StepOk(Now(), SpawnIdle(p));
      AccountsKept(Now(), SpawnIdle(p));
      t := nextTid;
      nextTid := nextTid + 1;
      AddToTable(t, NewThread(p));
      idle := Some(t);
    }

    /** RunQueue::remove */
    method Remove(t: nat)
      requires |queues| == LEVELS
      modifies this`queues
      ensures queues == RemoveAll(old(queues), t)
    {
      hide Without;
      var l := 0;
      while l < LEVELS
        invariant 0 <= l <= LEVELS == |queues|
        invariant forall m :: 0 <= m < LEVELS ==> queues[m] == if m < l then Without(old(queues)[m], t) else old(queues)[m]
      {
        queues := queues[l := Without(queues[l], t)];
        l := l + 1;
      }
    }

    /** The scheduler's part of finalize_thread: out of the queues and out of the table. */
    method ExitThread(t: nat)
      requires Valid()
      modifies this
      ensures Valid() && old(|queues|) == LEVELS && Now() == Step(old(Now()), Exit(t))
      ensures At(threads, t).None? && forall l :: 0 <= l < |queues| ==> t !in queues[l]
    {
      hide Inv, Accounts, RemoveAll;
      StepOk(Now(), Exit(t));
      AccountsKept(Now(), Exit(t));
      GoneFromQueues(queues, t);
      Remove(t);
      if t < |threads| {
        if threads[t].Some? { retired := retired + threads[t].value.cpuTime; }
        assert threads[t].None? ==> threads[t := None] == threads;
        threads := threads[t := None];
      }
    }
  }

  /** Any run of calls on a fresh scheduler: the object is in the state the run leads to. */
  method Drive(ops: seq<Op>) returns (sch: Scheduler)
    requires forall i, j :: 0 <= i < j < |ops| && ops[i].SpawnIdle? ==> !ops[j].SpawnIdle?
    ensures fresh(sch) && sch.Valid() && Inv(START) && sch.Now() == After(START, ops)
  {
    hide Inv, Accounts, Step;
    StartOk();
    sch := new Scheduler();
    var k := 0;
    while k < |ops|
      invariant 0 <= k <= |ops| && fresh(sch) && sch.Valid() && sch.Now() == After(START, ops[..k])
      invariant sch.idle.Some? ==> exists i :: 0 <= i < k && ops[i].SpawnIdle?
    {
      assert ops[..k + 1][..k] == ops[..k];
      ghost var s := sch.Now();
      IdleOnlyBySpawn(s, ops[k]);
      match ops[k] {
        case Timer => sch.TimerInterrupt();
        case Reschedule =>
          var _ := sch.Schedule();
          StepIsSchedule(s);
        case Yield => sch.YieldCurrent();
        case Block => sch.BlockCurrent();
        case Unblock(t) => sch.UnblockThread(t);
        case Spawn(p) => var _ := sch.SpawnThread(p);
        case SpawnIdle(p) => var _ := sch.SpawnIdleThread(p);
        case Exit(t) => sch.ExitThread(t);
      }
      k := k + 1;
    }
    assert ops[..k] == ops;
  }

  lemma StepIsSchedule(s: State)
    requires |s.queues| == LEVELS
    ensures Step(s, Reschedule) == Schedule(s)
  {
  }

  lemma IdleOnlyBySpawn(s: State, op: Op)
    requires Inv(s)
    ensures |s.queues| == LEVELS && (!op.SpawnIdle? ==> Step(s, op).idle == s.idle)
  {
    hide OneRunning, ThreadsOk, CurrentOk, Enqueue, Top;
    EnqueueLevels(s);
    EnqueueLevels(Tick(s));
  }

  lemma GoneFromQueues(queues: seq<seq<nat>>, t: nat)
    ensures forall l :: 0 <= l < |RemoveAll(queues, t)| ==> t !in RemoveAll(queues, t)[l]
  {
    hide Without;
    forall l | 0 <= l < |queues| ensures t !in RemoveAll(queues, t)[l] { WithoutOk(queues[l], t); }
  }

  lemma QueuesFive(s: State)
    requires Inv(s)
    ensures |s.queues| == LEVELS
  {
    hide OneRunning, ThreadsOk, CurrentOk;
  }

  lemma FreshTid(s: State)
    requires Inv(s)
    ensures At(s.threads, s.nextTid).None?
  {
    hide QueuesOk, OneRunning, CurrentOk;
    KnownAt(s.threads, s.nextTid, s.nextTid);
  }

  lemma TickCharged(s: State)
    requires Accounts(s)
    ensures Accounts(Tick(s))
  {
    hide Charged;
    if s.current.Some? && At(s.threads, s.current.value).Some? {
      var th := At(s.threads, s.current.value).value;
      ChargedSet(s.threads, s.current.value, Some(th.(cpuTime := th.cpuTime + 1)));
    }
  }

  lemma NothingReady(u: State)
    requires Between(u) && Top(u.queues, LEVELS).None? && u.idle.None?
    ensures forall t: nat :: !IsIn(u.threads, t, Ready) && !IsIn(u.threads, t, Running)
  {
    hide ThreadsOk;
    forall t: nat ensures !IsIn(u.threads, t, Ready) { assert ReadyQueued(u.threads, u.queues, u.idle, t); }
  }
}
