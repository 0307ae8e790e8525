/**
 What each scheduler operation does, field by field: the thread table, the queues and the current
 thread before and after, without reference to how the state machine computes them.
 */
module SchedulerLaws {
  import opened Common
  import opened Lists
  import opened SchedulerSpec

  /** Thread `t` of the table is `th`. */
  predicate Has(s: State, t: nat, th: Thread) { t < |s.threads| && s.threads[t] == Some(th) }

  /** Ticks of one slice: 1, 5, 10, 20 and 50 from the lowest level to the highest. */
  const SLICES: seq<nat> := [1, 5, 10, 20, 50]

  /** unblock_thread: a blocked thread becomes ready and goes to the back of the queue of its priority;
      nothing else changes. Of any other thread nothing changes at all. */
  lemma UnblockMakesReady(s: State, t: nat, th: Thread)
    requires Inv(s) && Has(s, t, th)
    ensures var s', p := Step(s, Unblock(t)), th.priority;
      s' == if th.state != Blocked then s
            else s.(threads := s.threads[t := Some(Thread(Ready, p, th.timeSlice, th.cpuTime))], queues := s.queues[p := s.queues[p] + [t]])
  {
    hide OneRunning, ThreadsOk, CurrentOk, Slice;
    if th.state == Blocked { NotQueued(s.threads, s.queues, s.idle, t); }
  }

  /** Once unblocked, it runs within one slice for each thread that was queued before it and one more,
      as long as nobody above it can run. */
  lemma UnblockedRuns(s: State, t: nat, th: Thread, ops: seq<Op>)
    requires Inv(s) && Has(s, t, th) && th.state == Blocked && Exit(t) !in ops
    requires (StepOk(s, Unblock(t)); QuietAbove(Step(s, Unblock(t)), ops, th.priority))
    requires (Levels(s); Timers(ops) >= (|s.queues[th.priority]| + 1) * SLICES[th.priority])
    ensures (StepOk(s, Unblock(t)); exists i :: 0 <= i <= |ops| && RunsAt(Step(s, Unblock(t)), ops, t, i))
  {
    hide Inv, Step, QuietAbove, RunsAt, Timers, After;
    Levels(s);
    StepOk(s, Unblock(t));
    var p, s' := th.priority, Step(s, Unblock(t));
    UnblockMakesReady(s, t, th);
    Unqueued(s, t, th);
    LastPlace(s.queues[p], t);
    SliceIs(p);
    DispatchedInTime(s', ops, t, p);
  }

  lemma Levels(s: State)
    requires Inv(s)
    ensures |s.queues| == 5
  {
    hide OneRunning, ThreadsOk, CurrentOk, QueueOk, ReadyQueued;
  }

  lemma Unqueued(s: State, t: nat, th: Thread)
    requires Inv(s) && Has(s, t, th) && th.state != Ready
    ensures |s.queues| == 5 && forall l :: 0 <= l < 5 ==> t !in s.queues[l]
  {
    hide OneRunning, ThreadsOk, CurrentOk, Slice, QueuesOk;
    NotQueued(s.threads, s.queues, s.idle, t);
  }

  lemma {:induction false} LastPlace(q: seq<nat>, t: nat)
    requires t !in q
    ensures t in q + [t] && Place(q + [t], t) == |q|
  {
    assert (q + [t])[|q|] == t;
    if q != [] {
      assert (q + [t])[0] == q[0] && (q + [t])[1..] == q[1..] + [t];
      LastPlace(q[1..], t);
    }
  }

  lemma SliceIs(p: Level)
    ensures Slice(p) == SLICES[p]
  {
  }

  /** block_current: the current thread is blocked and nothing is current; nothing else changes. */
  lemma BlockBlocks(s: State)
    requires |s.queues| == LEVELS
    ensures var s' := Step(s, Block);
      && (s.current == None ==> s' == s)
      && (forall c: nat, th: Thread :: s.current == Some(c) && Has(s, c, th) ==>
            s' == s.(threads := s.threads[c := Some(Thread(Blocked, th.priority, th.timeSlice, th.cpuTime))], current := None))
      && (forall c: nat :: s.current == Some(c) && (c >= |s.threads| || s.threads[c] == None) ==> s' == s.(current := None))
  {
  }

  /** Level `h` is the highest with anyone queued. */
  predicate Highest(queues: seq<seq<nat>>, h: nat) {
    h < |queues| == 5 && queues[h] != [] && forall l :: h < l < 5 ==> queues[l] == []
  }

  /** The state after thread `t`, first at level `h`, is taken from its queue and dispatched. */
  function Taken(s: State, h: Level): State
    requires Highest(s.queues, h) && s.queues[h][0] < |s.threads| && s.threads[s.queues[h][0]].Some?
  {
    var t := s.queues[h][0];
    s.(threads := s.threads[t := Some(s.threads[t].value.(state := Running))], queues := s.queues[h := s.queues[h][1..]],
       current := Some(t), remaining := SLICES[h])
  }

  lemma FrontOf(s: State, h: Level)
    requires Inv(s) && Highest(s.queues, h)
    ensures var t := s.queues[h][0];
      t < |s.threads| && s.threads[t].Some? && s.threads[t].value.state == Ready && s.threads[t].value.priority == h
      && s.threads[t].value.timeSlice == SLICES[h]
  {
    hide OneRunning, CurrentOk, Slice, ReadyQueued;
    var t := s.queues[h][0];
    assert QueueOk(s.threads, s.queues[h], h);
    assert Queued(s.threads, t, h);
    assert Known(s.threads, t, s.nextTid);
    SliceIs(h);
  }

  lemma TopIs(queues: seq<seq<nat>>, h: Level)
    requires Highest(queues, h)
    ensures Top(queues, LEVELS) == Some(h)
  {
    assert queues[h] != [];
  }

  /** While the slice lasts the current thread keeps the CPU. */
  lemma KeepsRunning(s: State, c: nat, th: Thread)
    requires Inv(s) && s.current == Some(c) && Has(s, c, th) && s.remaining > 0
    ensures (Levels(s); Step(s, Reschedule) == s)
  {
    hide QueuesOk, OneRunning, ThreadsOk;
    Levels(s);
  }

  /** At the end of its slice it goes to the back of its queue and the first thread of the highest
      queue is dispatched, if that is not below it. */
  lemma SwitchesAway(s: State, c: nat, th: Thread, h: Level)
    requires Inv(s) && s.current == Some(c) && Has(s, c, th) && s.remaining == 0
    requires Highest(s.queues, h) && h >= th.priority
    ensures var p, t := th.priority, s.queues[h][0];
      && t != c && t < |s.threads| && s.threads[t].Some?
      && var u := s.(threads := s.threads[c := Some(th.(state := Ready))], queues := s.queues[p := s.queues[p] + [c]]);
         Highest(u.queues, h) && u.queues[h][0] == t && Step(s, Reschedule) == Taken(u, h)
  {
    hide QueuesOk, OneRunning, ThreadsOk, Slice, Top;
    var p, t := th.priority, s.queues[h][0];
    FrontOf(s, h);
    Unqueued(s, c, th);
    var u := s.(threads := s.threads[c := Some(th.(state := Ready))], queues := s.queues[p := s.queues[p] + [c]]);
    assert Requeue(s) == u;
    TopIs(u.queues, h);
  }

  /** If nobody at its level or above is queued it keeps the CPU for another slice. */
  lemma StaysAlone(s: State, c: nat, th: Thread)
    requires Inv(s) && s.current == Some(c) && Has(s, c, th) && s.remaining == 0
    requires (Levels(s); forall l :: th.priority <= l < 5 ==> s.queues[l] == [])
    ensures (Levels(s); Step(s, Reschedule) == s.(remaining := SLICES[th.priority]))
  {
    hide QueuesOk, OneRunning, Slice, Top;
    Levels(s);
    Unqueued(s, c, th);
    assert Known(s.threads, c, s.nextTid);
    SliceIs(th.priority);
    var p := th.priority;
    var u := s.(threads := s.threads[c := Some(th.(state := Ready))], queues := s.queues[p := [c]]);
    assert s.queues[p] + [c] == [c];
    assert Requeue(s) == u;
    TopIs(u.queues, p);
    assert u.queues[p][1..] == [] && u.queues[p := []] == s.queues;
    assert u.threads[c := Some(th)] == s.threads;
  }

  /** With nothing current, or a current thread that has left the table, the first thread of the
      highest queue is dispatched; without one the idle thread, and without that nothing changes. */
  lemma FillsIdle(s: State)
    requires Inv(s) && (s.current.Some? ==> s.current.value >= |s.threads| || s.threads[s.current.value].None?)
    ensures |s.queues| == 5
    ensures var s' := Step(s, Reschedule);
      && (forall h: Level :: Highest(s.queues, h) ==> s.queues[h][0] < |s.threads| && s.threads[s.queues[h][0]].Some? && s' == Taken(s, h))
      && ((forall l :: 0 <= l < 5 ==> s.queues[l] == []) ==>
            && (s.idle == None ==> s' == s)
            && (forall i: nat, th: Thread :: s.idle == Some(i) && Has(s, i, th) ==>
                  s' == s.(threads := s.threads[i := Some(th.(state := Running))], current := Some(i), remaining := SLICES[th.priority])))
  {
    hide QueuesOk, OneRunning, Slice;
    Levels(s);
    forall h: Level | Highest(s.queues, h)
      ensures s.queues[h][0] < |s.threads| && s.threads[s.queues[h][0]].Some? && Step(s, Reschedule) == Taken(s, h)
    {
      FrontOf(s, h);
      TopIs(s.queues, h);
    }
    if s.idle.Some? && At(s.threads, s.idle.value).Some? {
      assert Known(s.threads, s.idle.value, s.nextTid);
      SliceIs(At(s.threads, s.idle.value).value.priority);
    }
  }

  /** yield_current only ends the slice. At the next timer interrupt the CPU goes to the first thread
      of the highest queue, unless everyone queued is below the thread that yielded. */
  lemma YieldSwitches(s: State, c: nat, th: Thread, h: Level)
    requires Inv(s) && s.current == Some(c) && Has(s, c, th) && Highest(s.queues, h)
    ensures Step(s, Yield) == s.(remaining := 0)
    ensures Step(s, Yield).queues == s.queues && Step(Step(s, Yield), Timer).current == Some(if h >= th.priority then s.queues[h][0] else c)
  {
    hide Inv, Schedule;
    StepOk(s, Yield);
    var y := Step(s, Yield);
    TickOk(y);
    var k := Tick(y);
    TickCounts(y);
    var th' := Thread(th.state, th.priority, th.timeSlice, th.cpuTime + 1);
    assert Has(k, c, th') && Step(k, Reschedule) == Step(y, Timer);
    if h >= th.priority { SwitchesAway(k, c, th', h); } else { StaysAlone(k, c, th'); }
  }

  /** A timer interrupt is a tick and then a reschedule. */
  lemma TimerTicks(s: State)
    requires Inv(s)
    ensures (Levels(s); Step(s, Timer) == Step(Tick(s), Reschedule))
  {
    hide Inv, Schedule;
    Levels(s);
  }

  /** tick: one more tick, one less of the slice, one more on the account of the current thread. */
  lemma TickCounts(s: State)
    ensures var s' := Tick(s);
      && s'.ticks == s.ticks + 1 && s'.remaining == (if s.remaining == 0 then 0 else s.remaining - 1)
      && s'.queues == s.queues && s'.current == s.current && s'.idle == s.idle && s'.nextTid == s.nextTid && s'.retired == s.retired
      && |s'.threads| == |s.threads|
      && (forall t: nat :: t < |s.threads| && Some(t) != s.current ==> s'.threads[t] == s.threads[t])
      && (forall t: nat, th: Thread :: s.current == Some(t) && Has(s, t, th) ==>
            s'.threads[t] == Some(Thread(th.state, th.priority, th.timeSlice, th.cpuTime + 1)))
      && (forall t: nat :: s.current == Some(t) && t < |s.threads| && s.threads[t] == None ==> s'.threads[t] == None)
  {
  }

  /** create_thread and add_thread: a thread with the next number and a fresh slice, at the back of its queue. */
  lemma SpawnQueues(s: State, p: Level)
    requires Inv(s)
    ensures var s', t := Step(s, Spawn(p)), s.nextTid;
      && Has(s', t, Thread(Ready, p, SLICES[p], 0)) && s'.nextTid == t + 1 && |s.queues| == 5 && s'.queues == s.queues[p := s.queues[p] + [t]]
      && (forall x: nat :: x < |s.threads| && x != t ==> x < |s'.threads| && s'.threads[x] == s.threads[x])
      && s'.current == s.current && s'.remaining == s.remaining && s'.idle == s.idle && s'.ticks == s.ticks
  {
    hide OneRunning, CurrentOk;
    SliceIs(p);
    assert Known(s.threads, s.nextTid, s.nextTid);
    NotQueued(s.threads, s.queues, s.idle, s.nextTid);
  }

  /** create_thread and set_idle_thread: the same, but in no queue. */
  lemma SpawnIdleKeepsQueues(s: State, p: Level)
    requires s.idle == None && |s.queues| == LEVELS
    ensures var s', t := Step(s, SpawnIdle(p)), s.nextTid;
      && Has(s', t, Thread(Ready, p, SLICES[p], 0)) && s'.nextTid == t + 1 && s'.queues == s.queues && s'.idle == Some(t)
      && (forall x: nat :: x < |s.threads| && x != t ==> x < |s'.threads| && s'.threads[x] == s.threads[x])
      && s'.current == s.current && s'.remaining == s.remaining && s'.ticks == s.ticks
  {
    SliceIs(p);
  }

  /** The scheduler's part of an exit: the thread is in no queue and not in the table; everyone else is
      where they were, in the same order. */
  lemma ExitRemoves(s: State, t: nat, x: nat, y: nat, l: nat)
    requires Inv(s) && l < 5
    ensures var s' := Step(s, Exit(t));
      && |s.queues| == |s'.queues| == 5 && |s'.threads| == |s.threads|
      && (t < |s.threads| ==> s'.threads[t] == None) && (x < |s.threads| && x != t ==> s'.threads[x] == s.threads[x])
      && (x in s'.queues[l] <==> x in s.queues[l] && x != t)
      && (x in s'.queues[l] && y in s'.queues[l] ==>
            x in s.queues[l] && y in s.queues[l] && (Place(s'.queues[l], x) < Place(s'.queues[l], y) <==> Place(s.queues[l], x) < Place(s.queues[l], y)))
      && s'.current == s.current && s'.remaining == s.remaining && s'.idle == s.idle && s'.ticks == s.ticks && s'.nextTid == s.nextTid
  {
    hide OneRunning, ThreadsOk, CurrentOk, Without, Place, QueueOk, ReadyQueued;
    WithoutOk(s.queues[l], t);
    if x in Without(s.queues[l], t) && y in Without(s.queues[l], t) { WithoutOrder(s.queues[l], t, x, y); }
  }

  lemma {:induction false} WithoutOrder(q: seq<nat>, t: nat, x: nat, y: nat)
    requires x in q && y in q && x != t && y != t
    ensures x in Without(q, t) && y in Without(q, t) && (Place(Without(q, t), x) < Place(Without(q, t), y) <==> Place(q, x) < Place(q, y))
  {
    WithoutOk(q, t);
    var rest := q[1..];
    WithoutOk(rest, t);
    assert q == [q[0]] + rest;
    if q[0] == t {
      WithoutOrder(rest, t, x, y);
    } else {
      var w := Without(rest, t);
      assert Without(q, t) == [q[0]] + w && ([q[0]] + w)[1..] == w;
      if x != q[0] && y != q[0] { WithoutOrder(rest, t, x, y); }
    }
  }
}
