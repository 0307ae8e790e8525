/**
 Priority round-robin scheduling with time slices (src/process/scheduler.rs, thread.rs), as a
 state machine: what every step keeps, how long a ready thread can wait, and where the ticks go.
 */
module SchedulerSpec {
  import opened Common
  import opened Lists

  datatype ThreadState = Ready | Running | Blocked | Sleeping | Terminated

  /** Idle, Low, Normal, High, Realtime. */
  type Level = x: int | 0 <= x < 5

  const LEVELS: nat := 5

  datatype Thread = Thread(state: ThreadState, priority: Level, timeSlice: nat, cpuTime: nat)

  /** calculate_time_slice */
  function Slice(p: Level): nat {
    if p == 0 then 1 else if p == 1 then 5 else if p == 2 then 10 else if p == 3 then 20 else 50
  }

  function NewThread(p: Level): Thread { Thread(Ready, p, Slice(p), 0) }

  type Table = seq<Option<Thread>>

  /** `retired` and `unclaimed` are bookkeeping for the accounts only: the CPU time of threads that
      left the table, and the ticks during which no thread of the table was current. */
  datatype State = State(
    threads: Table, nextTid: nat, queues: seq<seq<nat>>, current: Option<nat>, idle: Option<nat>,
    remaining: nat, ticks: nat, retired: nat, unclaimed: nat)

  datatype Op = Timer | Reschedule | Yield | Block | Unblock(tid: nat) | Spawn(priority: Level) | SpawnIdle(p: Level) | Exit(t: nat)

  /** get_thread */
  function At(threads: Table, t: nat): Option<Thread> {
    if t < |threads| then threads[t] else None
  }

  predicate IsIn(threads: Table, t: nat, st: ThreadState) {
    At(threads, t).Some? && At(threads, t).value.state == st
  }

  // ---------------------------------------------------------------- the operations

  function Enqueue(queues: seq<seq<nat>>, t: nat, p: Level): seq<seq<nat>>
    requires |queues| == LEVELS
  {
    if t in queues[p] then queues else queues[p := queues[p] + [t]]
  }

  /** The highest non-empty level below `n`. */
  function Top(queues: seq<seq<nat>>, n: nat): (r: Option<Level>)
    requires |queues| == LEVELS && n <= LEVELS
    ensures r.Some? ==> r.value < n && queues[r.value] != [] && forall l :: r.value < l < n ==> queues[l] == []
    ensures r.None? ==> forall l :: 0 <= l < n ==> queues[l] == []
  {
    if n == 0 then None else if queues[n - 1] != [] then Some(n - 1) else Top(queues, n - 1)
  }

  function RemoveAll(queues: seq<seq<nat>>, t: nat): seq<seq<nat>> {
    seq(|queues|, l requires 0 <= l < |queues| => Without(queues[l], t))
  }

  /** The current thread is in the table and running. */
  predicate Live(s: State) { s.current.Some? && IsIn(s.threads, s.current.value, Running) }

  /** The preempted thread goes to the back of its queue. */
  function Requeue(s: State): State
    requires |s.queues| == LEVELS
  {
    if !Live(s) then s
    else
      var th := At(s.threads, s.current.value).value;
      s.(threads := s.threads[s.current.value := Some(th.(state := Ready))],
         queues := Enqueue(s.queues, s.current.value, th.priority))
  }

  /** The thread becomes current; if it is still in the table it runs with a fresh slice. */
  function Dispatch(s: State, t: nat): State {
    if At(s.threads, t).None? then s.(current := Some(t))
    else
      var th := At(s.threads, t).value;
      s.(threads := s.threads[t := Some(th.(state := Running))], remaining := th.timeSlice, current := Some(t))
  }

  function PickAndDispatch(s: State): State
    requires |s.queues| == LEVELS
  {
    match Top(s.queues, LEVELS)
    case Some(l) => Dispatch(s.(queues := s.queues[l := s.queues[l][1..]]), s.queues[l][0])
    case None => if s.idle.Some? then Dispatch(s, s.idle.value) else s
  }

  function Schedule(s: State): State
    requires |s.queues| == LEVELS
  {
    if s.remaining > 0 && Live(s) then s else PickAndDispatch(Requeue(s))
  }

  function Tick(s: State): State {
    var s1 := s.(ticks := s.ticks + 1, remaining := if s.remaining > 0 then s.remaining - 1 else 0);
    if s.current.Some? && At(s.threads, s.current.value).Some? then
      var th := At(s.threads, s.current.value).value;
      s1.(threads := s.threads[s.current.value := Some(th.(cpuTime := th.cpuTime + 1))])
    else s1.(unclaimed := s.unclaimed + 1)
  }

  function BlockCurrent(s: State): State {
    if s.current.None? then s
    else
      var s1 := s.(current := None);
      if At(s.threads, s.current.value).None? then s1
      else s1.(threads := s.threads[s.current.value := Some(At(s.threads, s.current.value).value.(state := Blocked))])
  }

  function UnblockThread(s: State, t: nat): State
    requires |s.queues| == LEVELS
  {
    if !IsIn(s.threads, t, Blocked) then s
    else
      var th := At(s.threads, t).value;
      s.(threads := s.threads[t := Some(th.(state := Ready))], queues := Enqueue(s.queues, t, th.priority))
  }

  /** ThreadTable::add_thread: grow the table as needed. */
  function Added(threads: Table, t: nat, th: Thread): Table {
    if t < |threads| then threads[t := Some(th)]
    else threads + seq(t - |threads|, _ => None) + [Some(th)]
  }

  function SpawnThread(s: State, p: Level): State
    requires |s.queues| == LEVELS
  {
    s.(threads := Added(s.threads, s.nextTid, NewThread(p)), nextTid := s.nextTid + 1,
       queues := Enqueue(s.queues, s.nextTid, p))
  }

  /** The idle thread is created but never queued; only the first one counts. */
  function SpawnIdleThread(s: State, p: Level): State {
    if s.idle.Some? then s
    else s.(threads := Added(s.threads, s.nextTid, NewThread(p)), nextTid := s.nextTid + 1, idle := Some(s.nextTid))
  }

  function ExitThread(s: State, t: nat): State {
    var s1 := s.(queues := RemoveAll(s.queues, t));
    if At(s.threads, t).None? then s1
    else s1.(threads := s.threads[t := None], retired := s.retired + At(s.threads, t).value.cpuTime)
  }

  function Step(s: State, op: Op): State
    requires |s.queues| == LEVELS
  {
    match op
    case Timer => Schedule(Tick(s))
    case Reschedule => Schedule(s)
    case Yield => s.(remaining := 0)
    case Block => BlockCurrent(s)
    case Unblock(t) => UnblockThread(s, t)
    case Spawn(p) => SpawnThread(s, p)
    case SpawnIdle(p) => SpawnIdleThread(s, p)
    case Exit(t) => ExitThread(s, t)
  }

  // ---------------------------------------------------------------- the invariant

  predicate Queued(threads: Table, t: nat, l: nat) {
    IsIn(threads, t, Ready) && At(threads, t).value.priority == l
  }

  predicate QueueOk(threads: Table, q: seq<nat>, l: nat) { NoDup(q) && forall t <- q :: Queued(threads, t, l) }

  /** A ready thread other than the idle thread is in the queue of its level. */
  predicate ReadyQueued(threads: Table, queues: seq<seq<nat>>, idle: Option<nat>, t: nat)
    requires |queues| == LEVELS
  {
    IsIn(threads, t, Ready) && Some(t) != idle ==> t in queues[At(threads, t).value.priority]
  }

  ghost predicate QueuesOk(threads: Table, queues: seq<seq<nat>>, idle: Option<nat>) {
    && |queues| == LEVELS
    && (forall l :: 0 <= l < LEVELS ==> QueueOk(threads, queues[l], l))
    && (forall t: nat :: ReadyQueued(threads, queues, idle, t))
  }

  /** No thread but `running` is in state Running. */
  ghost predicate OneRunning(threads: Table, running: Option<nat>) {
    forall t: nat :: IsIn(threads, t, Running) ==> running == Some(t)
  }

  predicate Known(threads: Table, t: nat, nextTid: nat) {
    At(threads, t).Some? ==> t < nextTid && At(threads, t).value.timeSlice == Slice(At(threads, t).value.priority)
  }

  ghost predicate ThreadsOk(threads: Table, nextTid: nat) { forall t: nat :: Known(threads, t, nextTid) }

  predicate CurrentOk(s: State) {
    && (s.current.Some? ==> s.current.value < s.nextTid)
    && (s.current.Some? && At(s.threads, s.current.value).Some? ==>
          IsIn(s.threads, s.current.value, Running) && s.remaining <= At(s.threads, s.current.value).value.timeSlice)
  }

  ghost predicate Inv(s: State) {
    && QueuesOk(s.threads, s.queues, s.idle) && OneRunning(s.threads, s.current)
    && ThreadsOk(s.threads, s.nextTid) && CurrentOk(s) && (s.idle.Some? ==> s.idle.value < s.nextTid)
  }

  /** `threads'` is `threads` with the entry of `t` replaced. */
  ghost predicate Changed(threads: Table, threads': Table, t: nat, o: Option<Thread>) {
    forall x: nat :: At(threads', x) == if x == t then o else At(threads, x)
  }

  lemma SetChanges(threads: Table, t: nat, o: Option<Thread>)
    requires t < |threads|
    ensures Changed(threads, threads[t := o], t, o)
  {
  }

  lemma AddChanges(threads: Table, t: nat, th: Thread)
    ensures Changed(threads, Added(threads, t, th), t, Some(th))
  {
  }

  /** Being in a queue means being ready at that level, so in no other queue. */
  lemma NotReadyNotQueued(threads: Table, queues: seq<seq<nat>>, idle: Option<nat>, t: nat)
    requires QueuesOk(threads, queues, idle)
    ensures forall l :: 0 <= l < LEVELS && t in queues[l] ==> Queued(threads, t, l)
  {
    hide Queued;
    forall l | 0 <= l < LEVELS && t in queues[l] ensures Queued(threads, t, l) {
      assert QueueOk(threads, queues[l], l);
    }
  }

  /** A thread that is in no queue becomes ready and joins the back of its queue. */
  lemma EnqueueOk(threads: Table, threads': Table, queues: seq<seq<nat>>, idle: Option<nat>, t: nat, th: Thread)
    requires QueuesOk(threads, queues, idle) && Changed(threads, threads', t, Some(th))
    requires th.state == Ready && !IsIn(threads, t, Ready)
    ensures QueuesOk(threads', Enqueue(queues, t, th.priority), idle)
  {
    NotReadyNotQueued(threads, queues, idle, t);
    var queues' := Enqueue(queues, t, th.priority);
    forall l | 0 <= l < LEVELS ensures QueueOk(threads', queues'[l], l) {
      assert QueueOk(threads, queues[l], l);
    }
    forall x: nat ensures ReadyQueued(threads', queues', idle, x) {
      assert ReadyQueued(threads, queues, idle, x);
      assert queues'[th.priority][|queues[th.priority]|] == t;
    }
  }

  /** A thread that is in no queue changes to a state other than ready, or is the idle thread. */
  lemma StateOk(threads: Table, threads': Table, queues: seq<seq<nat>>, idle: Option<nat>, t: nat, o: Option<Thread>)
    requires QueuesOk(threads, queues, idle) && Changed(threads, threads', t, o)
    requires forall l :: 0 <= l < LEVELS ==> t !in queues[l]
    requires o.Some? && o.value.state == Ready ==> idle == Some(t)
    ensures QueuesOk(threads', queues, idle)
  {
    forall l | 0 <= l < LEVELS ensures QueueOk(threads', queues[l], l) {
      assert QueueOk(threads, queues[l], l);
    }
    forall x: nat ensures ReadyQueued(threads', queues, idle, x) {
      assert ReadyQueued(threads, queues, idle, x);
    }
  }

  /** The thread at the front of a queue starts running. */
  lemma PopOk(threads: Table, threads': Table, queues: seq<seq<nat>>, idle: Option<nat>, l: Level, th: Thread)
    requires QueuesOk(threads, queues, idle) && queues[l] != []
    requires Changed(threads, threads', queues[l][0], Some(th)) && th.state != Ready
    ensures QueuesOk(threads', queues[l := queues[l][1..]], idle)
  {
    var t := queues[l][0];
    var queues' := queues[l := queues[l][1..]];
    NotReadyNotQueued(threads, queues, idle, t);
    assert QueueOk(threads, queues[l], l);
    assert t in queues[l];
    PopQueue(queues[l]);
    forall m | 0 <= m < LEVELS ensures QueueOk(threads', queues'[m], m) {
      assert QueueOk(threads, queues[m], m);
      assert forall x <- queues'[m] :: x in queues[m] && x != t;
    }
    forall x: nat ensures ReadyQueued(threads', queues', idle, x) {
      assert ReadyQueued(threads, queues, idle, x);
    }
  }

  /** A removed thread leaves the table and every queue. */
  lemma RemoveOk(threads: Table, threads': Table, queues: seq<seq<nat>>, idle: Option<nat>, t: nat)
    requires QueuesOk(threads, queues, idle) && Changed(threads, threads', t, None)
    ensures QueuesOk(threads', RemoveAll(queues, t), idle)
  {
    hide Without, NoDup;
    var queues' := RemoveAll(queues, t);
    forall l | 0 <= l < LEVELS ensures QueueOk(threads', queues'[l], l) {
      assert QueueOk(threads, queues[l], l);
      WithoutOk(queues[l], t);
    }
    forall x: nat ensures ReadyQueued(threads', queues', idle, x) {
      assert ReadyQueued(threads, queues, idle, x);
      if IsIn(threads', x, Ready) { WithoutOk(queues[At(threads, x).value.priority], t); }
    }
  }

  lemma RunningOk(threads: Table, threads': Table, t: nat, o: Option<Thread>, running: Option<nat>, running': Option<nat>)
    requires OneRunning(threads, running) && Changed(threads, threads', t, o)
    requires running == None || running == Some(t) || running == running'
    requires o.Some? && o.value.state == Running ==> running' == Some(t) && (running == None || running == Some(t))
    ensures OneRunning(threads', running')
  {
    forall x: nat | IsIn(threads', x, Running) ensures running' == Some(x) {
      assert x != t ==> IsIn(threads, x, Running);
    }
  }

  lemma KnownOk(threads: Table, threads': Table, t: nat, o: Option<Thread>, n: nat, n': nat)
    requires ThreadsOk(threads, n) && Changed(threads, threads', t, o) && n <= n'
    requires o.Some? ==> t < n' && o.value.timeSlice == Slice(o.value.priority)
    ensures ThreadsOk(threads', n')
  {
    hide Slice;
    forall x: nat ensures Known(threads', x, n') { assert Known(threads, x, n); }
  }

  // ---------------------------------------------------------------- every step keeps the invariant

  /** Between requeueing and picking: nobody runs. */
  ghost predicate Between(s: State) {
    && QueuesOk(s.threads, s.queues, s.idle) && OneRunning(s.threads, None)
    && ThreadsOk(s.threads, s.nextTid) && (s.current.Some? ==> s.current.value < s.nextTid)
    && (s.current.Some? && At(s.threads, s.current.value).Some? ==> IsIn(s.threads, s.current.value, Ready))
    && (s.idle.Some? ==> s.idle.value < s.nextTid)
  }

  lemma RequeueOk(s: State)
    requires Inv(s)
    ensures Between(Requeue(s))
  {
    hide QueuesOk, Slice, Enqueue, OneRunning, ThreadsOk;
    if Live(s) {
      var c := s.current.value;
      var th := At(s.threads, c).value.(state := Ready);
      SetChanges(s.threads, c, Some(th));
      EnqueueOk(s.threads, s.threads[c := Some(th)], s.queues, s.idle, c, th);
      RunningOk(s.threads, s.threads[c := Some(th)], c, Some(th), s.current, None);
      KnownAt(s.threads, s.nextTid, c);
      KnownOk(s.threads, s.threads[c := Some(th)], c, Some(th), s.nextTid, s.nextTid);
      QueuesCount(s);
    } else {
      NobodyRuns(s);
    }
  }

  lemma QueuesCount(s: State)
    requires QueuesOk(s.threads, s.queues, s.idle)
    ensures |s.queues| == LEVELS
  {
  }

  lemma KnownAt(threads: Table, n: nat, t: nat)
    requires ThreadsOk(threads, n)
    ensures Known(threads, t, n)
  {
  }

  lemma NobodyRuns(s: State)
    requires OneRunning(s.threads, s.current) && !Live(s)
    ensures OneRunning(s.threads, None)
  {
  }

  /** Starting a thread that is in no queue. */
  lemma DispatchOk(s: State, queues: seq<seq<nat>>, t: nat)
    requires Between(s) && t < s.nextTid
    requires At(s.threads, t).Some? ==> QueuesOk(s.threads[t := Some(At(s.threads, t).value.(state := Running))], queues, s.idle)
    requires At(s.threads, t).None? ==> QueuesOk(s.threads, queues, s.idle)
    ensures Inv(Dispatch(s.(queues := queues), t))
  {
    hide QueuesOk, Slice, OneRunning, ThreadsOk;
    if At(s.threads, t).Some? {
      var th := At(s.threads, t).value.(state := Running);
      SetChanges(s.threads, t, Some(th));
      RunningOk(s.threads, s.threads[t := Some(th)], t, Some(th), None, Some(t));
      KnownAt(s.threads, s.nextTid, t);
      KnownOk(s.threads, s.threads[t := Some(th)], t, Some(th), s.nextTid, s.nextTid);
    } else {
      NobodyAtAll(s.threads, Some(t));
    }
  }

  lemma NobodyAtAll(threads: Table, running: Option<nat>)
    requires OneRunning(threads, None)
    ensures OneRunning(threads, running)
  {
  }

  lemma PickOk(s: State)
    requires Between(s)
    ensures Inv(PickAndDispatch(s))
  {
    hide Dispatch, Slice, ThreadsOk, OneRunning;
    var l := Top(s.queues, LEVELS);
    if l.Some? {
      var t := s.queues[l.value][0];
      assert QueueOk(s.threads, s.queues[l.value], l.value) && t in s.queues[l.value];
      KnownAt(s.threads, s.nextTid, t);
      var th := At(s.threads, t).value.(state := Running);
      SetChanges(s.threads, t, Some(th));
      PopOk(s.threads, s.threads[t := Some(th)], s.queues, s.idle, l.value, th);
      DispatchOk(s, s.queues[l.value := s.queues[l.value][1..]], t);
    } else if s.idle.Some? {
      var t := s.idle.value;
      if At(s.threads, t).Some? {
        var th := At(s.threads, t).value.(state := Running);
        SetChanges(s.threads, t, Some(th));
        StateOk(s.threads, s.threads[t := Some(th)], s.queues, s.idle, t, Some(th));
      }
      DispatchOk(s, s.queues, t);
      assert s.(queues := s.queues) == s;
    } else {
      NobodyAtAll(s.threads, s.current);
      if s.current.Some? { assert ReadyQueued(s.threads, s.queues, s.idle, s.current.value); }
    }
  }

  lemma ScheduleOk(s: State)
    requires Inv(s)
    ensures Inv(Schedule(s))
  {
    hide QueuesOk, OneRunning, ThreadsOk, CurrentOk, PickAndDispatch;
    QueuesCount(s);
    if !(s.remaining > 0 && Live(s)) {
      RequeueOk(s);
      PickOk(Requeue(s));
    }
  }

  lemma TickOk(s: State)
    requires Inv(s)
    ensures Inv(Tick(s))
  {
    hide QueuesOk, OneRunning, ThreadsOk, Slice;
    if s.current.Some? && At(s.threads, s.current.value).Some? {
      var c := s.current.value;
      var th := At(s.threads, c).value;
      var th' := th.(cpuTime := th.cpuTime + 1);
      SetChanges(s.threads, c, Some(th'));
      NotQueued(s.threads, s.queues, s.idle, c);
      StateOk(s.threads, s.threads[c := Some(th')], s.queues, s.idle, c, Some(th'));
      RunningOk(s.threads, s.threads[c := Some(th')], c, Some(th'), s.current, s.current);
      KnownAt(s.threads, s.nextTid, c);
      KnownOk(s.threads, s.threads[c := Some(th')], c, Some(th'), s.nextTid, s.nextTid);
    }
  }

  lemma NotQueued(threads: Table, queues: seq<seq<nat>>, idle: Option<nat>, t: nat)
    requires QueuesOk(threads, queues, idle) && !IsIn(threads, t, Ready)
    ensures |queues| == LEVELS && forall l :: 0 <= l < LEVELS ==> t !in queues[l]
  {
    NotReadyNotQueued(threads, queues, idle, t);
  }

  lemma BlockOk(s: State)
    requires Inv(s)
    ensures Inv(BlockCurrent(s))
  {
    hide QueuesOk, OneRunning, ThreadsOk, Slice;
    if s.current.Some? {
      var c := s.current.value;
      if At(s.threads, c).Some? {
        var th := At(s.threads, c).value.(state := Blocked);
        SetChanges(s.threads, c, Some(th));
        NotQueued(s.threads, s.queues, s.idle, c);
        StateOk(s.threads, s.threads[c := Some(th)], s.queues, s.idle, c, Some(th));
        RunningOk(s.threads, s.threads[c := Some(th)], c, Some(th), s.current, None);
        KnownAt(s.threads, s.nextTid, c);
        KnownOk(s.threads, s.threads[c := Some(th)], c, Some(th), s.nextTid, s.nextTid);
      } else {
        NobodyRuns(s);
      }
    }
  }

  lemma UnblockOk(s: State, t: nat)
    requires Inv(s)
    ensures Inv(UnblockThread(s, t))
  {
    hide QueuesOk, OneRunning, ThreadsOk, Slice, Enqueue;
    QueuesCount(s);
    if IsIn(s.threads, t, Blocked) {
      var th := At(s.threads, t).value.(state := Ready);
      SetChanges(s.threads, t, Some(th));
      EnqueueOk(s.threads, s.threads[t := Some(th)], s.queues, s.idle, t, th);
      RunningOk(s.threads, s.threads[t := Some(th)], t, Some(th), s.current, s.current);
      KnownAt(s.threads, s.nextTid, t);
      KnownOk(s.threads, s.threads[t := Some(th)], t, Some(th), s.nextTid, s.nextTid);
    }
  }

  lemma SpawnOk(s: State, p: Level)
    requires Inv(s)
    ensures Inv(SpawnThread(s, p))
  {
    hide QueuesOk, OneRunning, ThreadsOk, Slice, Enqueue, Added;
    var t, th := s.nextTid, NewThread(p);
    var threads' := Added(s.threads, t, th);
    QueuesCount(s);
    AddChanges(s.threads, t, th);
    KnownAt(s.threads, s.nextTid, t);
    EnqueueOk(s.threads, threads', s.queues, s.idle, t, th);
    RunningOk(s.threads, threads', t, Some(th), s.current, s.current);
    KnownOk(s.threads, threads', t, Some(th), s.nextTid, s.nextTid + 1);
    CurrentKept(s, threads', t, Some(th));
  }

  /** A change to another thread leaves the current thread as it is. */
  lemma CurrentKept(s: State, threads': Table, t: nat, o: Option<Thread>)
    requires CurrentOk(s) && Changed(s.threads, threads', t, o) && s.current != Some(t)
    ensures s.current.Some? ==> At(threads', s.current.value) == At(s.threads, s.current.value)
  {
  }

  /** Naming an idle thread only loosens what must be queued. */
  lemma SpawnIdleOk(s: State, p: Level)
    requires Inv(s)
    ensures Inv(SpawnIdleThread(s, p))
  {
    hide QueuesOk, OneRunning, ThreadsOk, Slice, Added;
    if s.idle.None? {
      var t, th := s.nextTid, NewThread(p);
      var threads' := Added(s.threads, t, th);
      AddChanges(s.threads, t, th);
      KnownAt(s.threads, s.nextTid, t);
      NotQueued(s.threads, s.queues, s.idle, t);
      IdleLoosens(s.threads, s.queues, Some(t));
      StateOk(s.threads, threads', s.queues, Some(t), t, Some(th));
      RunningOk(s.threads, threads', t, Some(th), s.current, s.current);
      KnownOk(s.threads, threads', t, Some(th), s.nextTid, s.nextTid + 1);
      CurrentKept(s, threads', t, Some(th));
    }
  }

  lemma IdleLoosens(threads: Table, queues: seq<seq<nat>>, idle: Option<nat>)
    requires QueuesOk(threads, queues, None)
    ensures QueuesOk(threads, queues, idle)
  {
    forall x: nat ensures ReadyQueued(threads, queues, idle, x) {
      assert ReadyQueued(threads, queues, None, x);
    }
  }

  lemma ExitOk(s: State, t: nat)
    requires Inv(s)
    ensures Inv(ExitThread(s, t))
  {
    hide QueuesOk, OneRunning, ThreadsOk, Slice, RemoveAll;
    if At(s.threads, t).Some? {
      var threads' := s.threads[t := None];
      SetChanges(s.threads, t, None);
      RemoveOk(s.threads, threads', s.queues, s.idle, t);
      RunningOk(s.threads, threads', t, None, s.current, s.current);
      KnownOk(s.threads, threads', t, None, s.nextTid, s.nextTid);
    } else {
      RemoveOk(s.threads, s.threads, s.queues, s.idle, t);
    }
  }

  /** Every operation keeps the invariant. */
  lemma StepOk(s: State, op: Op)
    requires Inv(s)
    ensures |s.queues| == LEVELS && Inv(Step(s, op))
  {
    hide QueuesOk, OneRunning, ThreadsOk, Slice, Schedule, Tick, BlockCurrent, UnblockThread, SpawnThread, SpawnIdleThread,
      ExitThread;
    QueuesCount(s);
    match op
    case Timer => TickOk(s); ScheduleOk(Tick(s));
    case Reschedule => ScheduleOk(s);
    case Yield =>
    case Block => BlockOk(s);
    case Unblock(t) => UnblockOk(s, t);
    case Spawn(p) => SpawnOk(s, p);
    case SpawnIdle(p) => SpawnIdleOk(s, p);
    case Exit(t) => ExitOk(s, t);
  }

  // ---------------------------------------------------------------- whole runs

  const START: State := State([], 1, [[], [], [], [], []], None, None, 0, 0, 0, 0)

  lemma StartOk()
    ensures Inv(START)
  {
  }

  /** The state after a run of operations. */
  ghost function After(s: State, ops: seq<Op>): (s': State)
    requires Inv(s)
    ensures Inv(s')
    decreases |ops|
  {
    if ops == [] then s
    else
      var s1 := After(s, ops[..|ops| - 1]);
      StepOk(s1, ops[|ops| - 1]);
      Step(s1, ops[|ops| - 1])
  }

  predicate InPlace(queues: seq<seq<nat>>, l: int, k: int, t: nat) {
    0 <= l < |queues| && 0 <= k < |queues[l]| && queues[l][k] == t
  }

  /** What the invariant says of any thread in any reachable state: a ready thread (not the idle
      one) is in exactly one queue, exactly once, that of its own priority; whatever is queued is
      ready; and a running thread is the current one. */
  lemma EveryReachableState(ops: seq<Op>, t: nat)
    ensures Inv(START)
    ensures var s := After(START, ops);
      && |s.queues| == LEVELS
      && (IsIn(s.threads, t, Ready) && s.idle != Some(t) ==>
            exists k :: 0 <= k < |s.queues[At(s.threads, t).value.priority]| && s.queues[At(s.threads, t).value.priority][k] == t)
      && (forall l, k, m, j :: InPlace(s.queues, l, k, t) && InPlace(s.queues, m, j, t) ==> l == m && k == j)
      && (forall l :: 0 <= l < LEVELS && t in s.queues[l] ==> IsIn(s.threads, t, Ready) && At(s.threads, t).value.priority == l)
      && (IsIn(s.threads, t, Running) ==> s.current == Some(t))
  {
    StartOk();
    OncePerThread(After(START, ops), t);
  }

  lemma OncePerThread(s: State, t: nat)
    requires Inv(s)
    ensures IsIn(s.threads, t, Ready) && s.idle != Some(t) ==> t in s.queues[At(s.threads, t).value.priority]
    ensures forall l, k, m, j :: InPlace(s.queues, l, k, t) && InPlace(s.queues, m, j, t) ==> l == m && k == j
    ensures forall l :: 0 <= l < LEVELS && t in s.queues[l] ==> Queued(s.threads, t, l)
    ensures IsIn(s.threads, t, Running) ==> s.current == Some(t)
  {
    hide ThreadsOk, CurrentOk;
    NotReadyNotQueued(s.threads, s.queues, s.idle, t);
    assert ReadyQueued(s.threads, s.queues, s.idle, t);
    forall l, k, m, j | InPlace(s.queues, l, k, t) && InPlace(s.queues, m, j, t) ensures l == m && k == j {
      assert t in s.queues[l] && t in s.queues[m];
      assert QueueOk(s.threads, s.queues[l], l);
    }
  }

  // ---------------------------------------------------------------- who is picked

  predicate Switches(s: State) { !(s.remaining > 0 && Live(s)) }

  /** A switch picks a thread of maximal ready priority: no ready thread (but the idle one) has a
      higher priority than the thread that runs afterwards. */
  lemma SwitchPicksMaximal(s: State, t: nat)
    requires Inv(s) && Switches(s)
    ensures |s.queues| == LEVELS
    ensures var s' := Schedule(s);
      IsIn(s'.threads, t, Ready) && Some(t) != s'.idle ==>
        Live(s') && At(s'.threads, t).value.priority <= At(s'.threads, s'.current.value).value.priority
  {
    hide OneRunning, ThreadsOk, CurrentOk, Slice;
    RequeueOk(s);
    var u := Requeue(s);
    var l := Top(u.queues, LEVELS);
    assert ReadyQueued(u.threads, u.queues, u.idle, t);
    if l.Some? {
      assert QueueOk(u.threads, u.queues[l.value], l.value) && u.queues[l.value][0] in u.queues[l.value];
    }
  }

  // ---------------------------------------------------------------- how long a thread waits

  /** The place of `t` in `q`. */
  function Place(q: seq<nat>, t: nat): (k: nat)
    requires t in q
    ensures k < |q| && q[k] == t && t !in q[..k]
  {
    if q[0] == t then 0 else 1 + Place(q[1..], t)
  }

  /** No runnable thread has a priority above `p`. */
  ghost predicate NoneAbove(s: State, p: Level) {
    forall t: nat :: IsIn(s.threads, t, Ready) || IsIn(s.threads, t, Running) ==> At(s.threads, t).value.priority <= p
  }

  predicate Waiting(s: State, t: nat, p: Level) { |s.queues| == LEVELS && t in s.queues[p] }

  /** An upper bound on the timer interrupts until `t` is dispatched. */
  function Bound(s: State, t: nat, p: Level): nat
    requires Waiting(s, t, p)
  {
    Place(s.queues[p], t) * Slice(p) + if Live(s) then Max(1, s.remaining) else 1
  }

  lemma BoundStart(s: State, t: nat, p: Level)
    requires Inv(s) && NoneAbove(s, p) && Waiting(s, t, p)
    ensures 1 <= Bound(s, t, p) <= (Place(s.queues[p], t) + 1) * Slice(p)
  {
    hide QueuesOk, OneRunning, Place;
    var k := Place(s.queues[p], t);
    assert (k + 1) * Slice(p) == k * Slice(p) + Slice(p);
    MulNat(k, Slice(p));
    if Live(s) {
      KnownAt(s.threads, s.nextTid, s.current.value);
    }
  }

  lemma MulNat(a: nat, b: nat)
    ensures a * b >= 0
  {
  }

  lemma {:induction false} PlaceAppend(q: seq<nat>, x: nat, t: nat)
    requires t in q
    ensures t in q + [x] && Place(q + [x], t) == Place(q, t)
  {
    if q[0] != t {
      PlaceAppend(q[1..], x, t);
      assert (q + [x])[1..] == q[1..] + [x];
    }
  }

  lemma PlacePop(q: seq<nat>, t: nat)
    requires t in q && t in q[1..] && NoDup(q)
    ensures Place(q, t) > 0 && Place(q[1..], t) == Place(q, t) - 1
  {
    PopQueue(q);
  }

  lemma {:induction false} PlaceWithout(q: seq<nat>, x: nat, t: nat)
    requires t in q && t != x
    ensures t in Without(q, x) && Place(Without(q, x), t) <= Place(q, t)
  {
    WithoutOk(q, x);
    if q[0] != t {
      assert q == [q[0]] + q[1..];
      PlaceWithout(q[1..], x, t);
      if q[0] != x { assert Without(q, x)[1..] == Without(q[1..], x); }
    }
  }

  lemma EnqueuePlace(queues: seq<seq<nat>>, c: nat, l: Level, t: nat, p: Level)
    requires |queues| == LEVELS && t in queues[p]
    ensures |Enqueue(queues, c, l)| == LEVELS
    ensures t in Enqueue(queues, c, l)[p] && Place(Enqueue(queues, c, l)[p], t) == Place(queues[p], t)
  {
    hide Place;
    PlaceAppend(queues[p], c, t);
  }

  /** Requeueing does not move a thread that waits, nor wake anyone up. */
  lemma RequeueWaits(s: State, t: nat, p: Level)
    requires Inv(s) && NoneAbove(s, p) && Waiting(s, t, p)
    ensures var u := Requeue(s);
      Between(u) && NoneAbove(u, p) && Waiting(u, t, p) && Place(u.queues[p], t) == Place(s.queues[p], t)
  {
    hide QueuesOk, OneRunning, ThreadsOk, Slice, Place;
    RequeueOk(s);
    if Live(s) {
      var c := s.current.value;
      EnqueuePlace(s.queues, c, At(s.threads, c).value.priority, t, p);
      forall x: nat | IsIn(Requeue(s).threads, x, Ready) || IsIn(Requeue(s).threads, x, Running)
        ensures At(Requeue(s).threads, x).value.priority <= p
      {
        assert IsIn(s.threads, x, Ready) || IsIn(s.threads, x, Running);
      }
    }
  }

  /** Every switch brings a waiting thread one place forward and starts a full slice. */
  lemma PickForward(u: State, t: nat, p: Level)
    requires Between(u) && NoneAbove(u, p) && Waiting(u, t, p) && Waiting(PickAndDispatch(u), t, p)
    ensures var s' := PickAndDispatch(u);
      Place(u.queues[p], t) == Place(s'.queues[p], t) + 1 && Live(s') && s'.remaining == Slice(p)
  {
    hide OneRunning, Slice, Place;
    var l := Top(u.queues, LEVELS).value;
    var h := u.queues[l][0];
    assert QueueOk(u.threads, u.queues[l], l) && h in u.queues[l];
    assert l == p;
    assert Known(u.threads, h, u.nextTid);
    PlacePop(u.queues[p], t);
  }

  lemma SwitchBound(s: State, t: nat, p: Level)
    requires Inv(s) && NoneAbove(s, p) && Switches(s) && Waiting(s, t, p) && Waiting(Schedule(s), t, p)
    ensures Bound(Schedule(s), t, p) + 1 <= Bound(s, t, p)
  {
    hide Inv, NoneAbove, Between, Requeue, PickAndDispatch, Live, Place;
    RequeueWaits(s, t, p);
    PickForward(Requeue(s), t, p);
    var k := Place(s.queues[p], t);
    assert k * Slice(p) == (k - 1) * Slice(p) + Slice(p);
  }

  lemma TickBound(s: State, t: nat, p: Level)
    requires Inv(s) && NoneAbove(s, p) && Waiting(s, t, p)
    ensures NoneAbove(Tick(s), p) && Waiting(Tick(s), t, p)
    ensures Bound(Tick(s), t, p) + (if Switches(Tick(s)) then 0 else 1) <= Bound(s, t, p)
  {
    hide QueuesOk, OneRunning, ThreadsOk, Slice, Place;
    forall x: nat | IsIn(Tick(s).threads, x, Ready) || IsIn(Tick(s).threads, x, Running)
      ensures At(Tick(s).threads, x).value.priority <= p
    {
      assert IsIn(s.threads, x, Ready) || IsIn(s.threads, x, Running);
    }
  }

  lemma ExitBound(s: State, x: nat, t: nat, p: Level)
    requires Inv(s) && Waiting(s, t, p) && Waiting(ExitThread(s, x), t, p)
    ensures Bound(ExitThread(s, x), t, p) <= Bound(s, t, p)
  {
    hide QueuesOk, OneRunning, ThreadsOk, Place, Without, Slice;
    WithoutOk(s.queues[p], x);
    PlaceWithout(s.queues[p], x, t);
    MulLe(Place(Without(s.queues[p], x), t), Place(s.queues[p], t), Slice(p));
  }

  lemma MulLe(a: nat, b: nat, c: nat)
    requires a <= b
    ensures a * c <= b * c
  {
  }

  /** No operation sets a waiting thread back, and every timer interrupt brings it closer. */
  lemma StepBound(s: State, op: Op, t: nat, p: Level)
    requires Inv(s) && NoneAbove(s, p) && Waiting(s, t, p) && Waiting(Step(s, op), t, p)
    ensures Bound(Step(s, op), t, p) + (if op == Timer then 1 else 0) <= Bound(s, t, p)
  {
    hide QueuesOk, OneRunning, ThreadsOk, Place, Without, Slice, ExitThread, NoneAbove, Requeue, PickAndDispatch, Enqueue, Tick, CurrentOk;
    match op
    case Timer =>
      TickBound(s, t, p);
      TickOk(s);
      if Switches(Tick(s)) { SwitchBound(Tick(s), t, p); }
    case Reschedule =>
      if Switches(s) { SwitchBound(s, t, p); }
    case Yield =>
    case Block =>
    case Unblock(x) => UnblockBound(s, x, t, p);
    case Spawn(l) => SpawnBound(s, l, t, p);
    case SpawnIdle(l) => SpawnIdleBound(s, l, t, p);
    case Exit(x) => ExitBound(s, x, t, p);
  }

  lemma UnblockBound(s: State, x: nat, t: nat, p: Level)
    requires Inv(s) && Waiting(s, t, p)
    ensures Waiting(UnblockThread(s, x), t, p) && Bound(UnblockThread(s, x), t, p) == Bound(s, t, p)
  {
    hide QueuesOk, OneRunning, ThreadsOk, Place, Slice, Enqueue;
    if IsIn(s.threads, x, Blocked) {
      EnqueuePlace(s.queues, x, At(s.threads, x).value.priority, t, p);
    }
  }

  lemma SpawnBound(s: State, l: Level, t: nat, p: Level)
    requires Inv(s) && Waiting(s, t, p)
    ensures Waiting(SpawnThread(s, l), t, p) && Bound(SpawnThread(s, l), t, p) == Bound(s, t, p)
  {
    hide QueuesOk, OneRunning, ThreadsOk, Place, Slice, Enqueue, Added;
    EnqueuePlace(s.queues, s.nextTid, l, t, p);
    AddChanges(s.threads, s.nextTid, NewThread(l));
    CurrentKept(s, Added(s.threads, s.nextTid, NewThread(l)), s.nextTid, Some(NewThread(l)));
  }

  lemma SpawnIdleBound(s: State, l: Level, t: nat, p: Level)
    requires Inv(s) && Waiting(s, t, p)
    ensures Waiting(SpawnIdleThread(s, l), t, p) && Bound(SpawnIdleThread(s, l), t, p) == Bound(s, t, p)
  {
    hide QueuesOk, OneRunning, ThreadsOk, Place, Slice, Added;
    if s.idle.None? {
      AddChanges(s.threads, s.nextTid, NewThread(l));
      CurrentKept(s, Added(s.threads, s.nextTid, NewThread(l)), s.nextTid, Some(NewThread(l)));
    }
  }

  /** A thread leaves its queue only by running or by exiting. */
  lemma LeavesQueue(s: State, op: Op, t: nat, p: Level)
    requires Inv(s) && Waiting(s, t, p) && op != Exit(t) && !Waiting(Step(s, op), t, p)
    ensures IsIn(Step(s, op).threads, t, Running)
  {
    hide QueuesOk, OneRunning, ThreadsOk, Place, Without, Slice, CurrentOk, Schedule, Enqueue;
    QueuesCount(s);
    match op
    case Timer => TickOk(s); ScheduleLeaves(Tick(s), t, p);
    case Reschedule => ScheduleLeaves(s, t, p);
    case Yield =>
    case Block =>
    case Unblock(x) => UnblockBound(s, x, t, p);
    case Spawn(l) => SpawnBound(s, l, t, p);
    case SpawnIdle(l) => SpawnIdleBound(s, l, t, p);
    case Exit(x) => WithoutOk(s.queues[p], x);
  }

  lemma ScheduleLeaves(s: State, t: nat, p: Level)
    requires Inv(s) && Waiting(s, t, p) && !Waiting(Schedule(s), t, p)
    ensures IsIn(Schedule(s).threads, t, Running)
  {
    hide OneRunning, ThreadsOk, Place, Slice, CurrentOk, Enqueue;
    RequeueOk(s);
    var u := Requeue(s);
    if Live(s) { EnqueuePlace(s.queues, s.current.value, At(s.threads, s.current.value).value.priority, t, p); }
    var l := Top(u.queues, LEVELS).value;
    assert QueueOk(u.threads, u.queues[l], l) && u.queues[l][0] in u.queues[l];
    PopQueue(u.queues[l]);
  }

  function Timers(ops: seq<Op>): nat {
    if ops == [] then 0 else Timers(ops[..|ops| - 1]) + if ops[|ops| - 1] == Timer then 1 else 0
  }

  /** At every point of the run no runnable thread is above `p`. */
  ghost predicate QuietAbove(s: State, ops: seq<Op>, p: Level)
    requires Inv(s)
  {
    forall i :: 0 <= i <= |ops| ==> NoneAbove(After(s, ops[..i]), p)
  }

  ghost predicate RunsAt(s: State, ops: seq<Op>, t: nat, i: nat)
    requires Inv(s) && i <= |ops|
  {
    var s' := After(s, ops[..i]);
    IsIn(s'.threads, t, Running) && s'.current == Some(t)
  }

  lemma {:induction false} StillWaiting(s: State, ops: seq<Op>, t: nat, p: Level)
    requires Inv(s) && QuietAbove(s, ops, p) && Waiting(s, t, p) && Exit(t) !in ops
    requires forall i :: 0 <= i <= |ops| ==> !RunsAt(s, ops, t, i)
    ensures Waiting(After(s, ops), t, p)
    ensures Timers(ops) + Bound(After(s, ops), t, p) <= Bound(s, t, p)
    decreases |ops|
  {
    hide Inv, Waiting, NoneAbove, Bound, Step;
    assert ops[..|ops|] == ops;
    if ops != [] {
      var n := |ops| - 1;
      var ops1 := ops[..n];
      forall i | 0 <= i <= |ops1| ensures !RunsAt(s, ops1, t, i) && NoneAbove(After(s, ops1[..i]), p) {
        assert ops1[..i] == ops[..i];
        assert !RunsAt(s, ops, t, i);
      }
      StillWaiting(s, ops1, t, p);
      var s1 := After(s, ops1);
      assert NoneAbove(After(s, ops[..n]), p);
      assert !RunsAt(s, ops, t, |ops|);
      StepOk(s1, ops[n]);
      RunningIsCurrent(Step(s1, ops[n]), t);
      if !Waiting(Step(s1, ops[n]), t, p) { LeavesQueue(s1, ops[n], t, p); }
      StepBound(s1, ops[n], t, p);
    }
  }

  lemma RunningIsCurrent(s: State, t: nat)
    requires Inv(s)
    ensures IsIn(s.threads, t, Running) ==> s.current == Some(t)
  {
    hide QueuesOk, ThreadsOk, CurrentOk;
  }

  /** The waiting bound: a thread at place `k` of level `p` runs within (k + 1) slices of that
      level, counted in timer interrupts, as long as nothing above `p` is runnable. */
  lemma DispatchedInTime(s: State, ops: seq<Op>, t: nat, p: Level)
    requires Inv(s) && QuietAbove(s, ops, p) && Waiting(s, t, p) && Exit(t) !in ops
    requires Timers(ops) >= (Place(s.queues[p], t) + 1) * Slice(p)
    ensures exists i :: 0 <= i <= |ops| && RunsAt(s, ops, t, i)
  {
    hide Inv, Waiting, NoneAbove, Bound, RunsAt, Place, Slice, Timers;
    if forall i :: 0 <= i <= |ops| ==> !RunsAt(s, ops, t, i) {
      StillWaiting(s, ops, t, p);
      Positive(After(s, ops), t, p);
      assert NoneAbove(After(s, ops[..0]), p);
      assert ops[..0] == [];
      BoundStart(s, t, p);
    }
  }

  lemma Positive(s: State, t: nat, p: Level)
    requires Waiting(s, t, p)
    ensures Bound(s, t, p) >= 1
  {
    hide Place, Slice;
    MulNat(Place(s.queues[p], t), Slice(p));
  }

  // ---------------------------------------------------------------- where the ticks go

  function Cpu(o: Option<Thread>): nat { if o.Some? then o.value.cpuTime else 0 }

  /** CPU time charged to the threads of the table. */
  function Charged(threads: Table): nat {
    if threads == [] then 0 else Cpu(threads[0]) + Charged(threads[1..])
  }

  lemma {:induction false} ChargedSet(threads: Table, t: nat, o: Option<Thread>)
    requires t < |threads|
    ensures Charged(threads[t := o]) + Cpu(threads[t]) == Charged(threads) + Cpu(o)
  {
    if t == 0 {
      assert threads[t := o][1..] == threads[1..];
    } else {
      ChargedSet(threads[1..], t - 1, o);
      assert threads[t := o][1..] == threads[1..][t - 1 := o];
    }
  }

  lemma {:induction false} ChargedAppend(threads: Table, n: nat, o: Option<Thread>)
    ensures Charged(threads + seq(n, _ => None) + [o]) == Charged(threads) + Cpu(o)
    decreases |threads|, n
  {
    var all := threads + seq(n, _ => None) + [o];
    if threads != [] {
      ChargedAppend(threads[1..], n, o);
      assert all[1..] == threads[1..] + seq(n, _ => None) + [o];
    } else if n > 0 {
      ChargedAppend(threads, n - 1, o);
      assert all[1..] == threads + seq(n - 1, _ => None) + [o];
    } else {
      assert all == [o];
    }
  }

  predicate Accounts(s: State) { s.ticks == Charged(s.threads) + s.retired + s.unclaimed }

  lemma AddedCharged(threads: Table, t: nat, th: Thread)
    requires th.cpuTime == 0 && At(threads, t).None?
    ensures Charged(Added(threads, t, th)) == Charged(threads)
  {
    hide Charged;
    if t < |threads| { ChargedSet(threads, t, Some(th)); } else { ChargedAppend(threads, t - |threads|, Some(th)); }
  }

  lemma ScheduleCharged(s: State)
    requires |s.queues| == LEVELS
    ensures var s' := Schedule(s);
      Charged(s'.threads) == Charged(s.threads) && s'.ticks == s.ticks && s'.retired == s.retired && s'.unclaimed == s.unclaimed
  {
    hide Charged, Enqueue, Top;
    var u := Requeue(s);
    if Live(s) {
      ChargedSet(s.threads, s.current.value, Some(At(s.threads, s.current.value).value.(state := Ready)));
    }
    EnqueueLevels(s);
    forall t: nat | t < |u.threads| && u.threads[t].Some?
      ensures Charged(u.threads[t := Some(u.threads[t].value.(state := Running))]) == Charged(u.threads)
    {
      ChargedSet(u.threads, t, Some(u.threads[t].value.(state := Running)));
    }
  }

  lemma EnqueueLevels(s: State)
    requires |s.queues| == LEVELS
    ensures |Requeue(s).queues| == LEVELS
  {
  }

  /** Every tick is charged to a thread or went by without a live current thread. */
  lemma AccountsKept(s: State, op: Op)
    requires Inv(s) && Accounts(s)
    ensures |s.queues| == LEVELS && Accounts(Step(s, op))
  {
    hide Charged, QueuesOk, OneRunning, ThreadsOk, Slice, Schedule, Added, Enqueue, RemoveAll;
    QueuesCount(s);
    match op
    case Timer =>
      ScheduleCharged(Tick(s));
      if s.current.Some? && At(s.threads, s.current.value).Some? {
        var th := At(s.threads, s.current.value).value;
        ChargedSet(s.threads, s.current.value, Some(th.(cpuTime := th.cpuTime + 1)));
      }
    case Reschedule => ScheduleCharged(s);
    case Yield =>
    case Block =>
      if s.current.Some? && At(s.threads, s.current.value).Some? {
        ChargedSet(s.threads, s.current.value, Some(At(s.threads, s.current.value).value.(state := Blocked)));
      }
    case Unblock(t) =>
      if IsIn(s.threads, t, Blocked) {
        ChargedSet(s.threads, t, Some(At(s.threads, t).value.(state := Ready)));
      }
    case Spawn(p) =>
      KnownAt(s.threads, s.nextTid, s.nextTid);
      AddedCharged(s.threads, s.nextTid, NewThread(p));
    case SpawnIdle(p) =>
      KnownAt(s.threads, s.nextTid, s.nextTid);
      AddedCharged(s.threads, s.nextTid, NewThread(p));
    case Exit(t) =>
      if At(s.threads, t).Some? { ChargedSet(s.threads, t, None); }
  }

  /** From the start, over any run: total ticks are CPU time charged (to threads still there and to
      threads gone) plus ticks without a live current thread. */
  lemma {:induction false} TicksAccountedFor(ops: seq<Op>)
    ensures Inv(START) && Accounts(After(START, ops))
    decreases |ops|
  {
    hide Inv, Step;
    StartOk();
    if ops != [] {
      TicksAccountedFor(ops[..|ops| - 1]);
      AccountsKept(After(START, ops[..|ops| - 1]), ops[|ops| - 1]);
    }
  }
}
