/** What the CPUs get done: nobody keeps a lock for ever, and an operation has its effect on the queue. */
module SmpLaws {
  import opened Common
  import opened RingBuffers
  import opened Smp

  /** Own steps until the lock is given back. */
  function StepsLeft(pc: PC): nat {
    match pc
    case In(_, job, phase, _, _) =>
      if job.Look? then 2
      else if job.Enq? then (if phase == 0 then 4 else if phase == 1 then 3 else 2)
      else if phase == 0 then 5 else if phase == 1 then 4 else if phase == 2 then 3 else 2
    case Out(_, _, _) => 1
    case _ => 0
  }

  /** A step of the holder brings it closer to giving the lock back. */
  lemma OwnStep(m: Machine, c: nat, q: nat)
    requires Inv(m) && c < |m.cpus| && Holds(m.cpus[c], q)
    ensures var m' := Step(m, Move(c));
      && |m'.cpus| == |m.cpus| && |m'.locks| == |m.locks| && q < |m.locks|
      && (m.cpus[c].In? ==> Holds(m'.cpus[c], q) && StepsLeft(m'.cpus[c]) < StepsLeft(m.cpus[c]))
      && (m.cpus[c].Out? ==> !Holds(m'.cpus[c], q) && !m'.locks[q])
  {
    hide RingIs, PhaseOk, Partial, Work;
    assert CpuOk(m, c) && QueueOk(m, q);
    if m.cpus[c].In? {
      InBoundsHere(m, c, q);
      WorkNearer(m.cpus[c], m.rings[q]);
    }
  }

  lemma InBoundsHere(m: Machine, c: nat, q: nat)
    requires Inv(m) && c < |m.cpus| && m.cpus[c].In? && m.cpus[c].q == q
    ensures q < |m.rings| == |m.enq| == |m.deq|
    ensures var r := m.rings[q]; |r.tasks| == CAPACITY && r.head < CAPACITY && r.tail < CAPACITY
  {
    hide RingIs, Partial;
    assert CpuOk(m, c) && QueueOk(m, q);
    InBounds(m.cpus[c], m.rings[q], m.enq[q], m.deq[q]);
  }

  lemma WorkNearer(pc: PC, r: Ring)
    requires pc.In? && |r.tasks| == CAPACITY && r.head < CAPACITY && r.tail < CAPACITY
    ensures var w := Work(pc, r); Holds(w.pc, pc.q) && StepsLeft(w.pc) < StepsLeft(pc)
  {
  }

  /** A step of another CPU leaves it where it is. */
  lemma OthersStep(m: Machine, ev: Event, c: nat)
    requires c < |m.cpus| && ev.cpu != c
    ensures |Step(m, ev).cpus| == |m.cpus| && Step(m, ev).cpus[c] == m.cpus[c]
  {
    hide Work;
  }

  function Moves(evs: seq<Event>, c: nat): nat {
    if evs == [] then 0 else Moves(evs[..|evs| - 1], c) + if evs[|evs| - 1] == Move(c) then 1 else 0
  }

  /** The CPU is out of the queue and its lock is free. */
  ghost predicate Released(m: Machine, evs: seq<Event>, c: nat, q: nat, i: nat)
    requires Inv(m) && i <= |evs|
  {
    var m' := After(m, evs[..i]);
    c < |m'.cpus| && !Holds(m'.cpus[c], q) && q < |m'.locks| && !m'.locks[q]
  }

  /** Up to its release the holder's own steps are counted down. */
  lemma {:induction false} CountsDown(m: Machine, evs: seq<Event>, c: nat, q: nat)
    requires Inv(m) && c < |m.cpus| && Holds(m.cpus[c], q)
    requires forall i :: 0 <= i <= |evs| ==> !Released(m, evs, c, q, i)
    ensures var m' := After(m, evs);
      c < |m'.cpus| && Holds(m'.cpus[c], q) && Moves(evs, c) + StepsLeft(m'.cpus[c]) <= StepsLeft(m.cpus[c])
    decreases |evs|
  {
    hide Inv, Step, StepsLeft, Holds;
    assert evs[..|evs|] == evs;
    if evs != [] {
      var n := |evs| - 1;
      var front := evs[..n];
      forall i | 0 <= i <= |front| ensures !Released(m, front, c, q, i) {
        assert front[..i] == evs[..i];
        assert !Released(m, evs, c, q, i);
      }
      CountsDown(m, front, c, q);
      var m1 := After(m, front);
      assert !Released(m, evs, c, q, |evs|);
      if evs[n] == Move(c) {
        OwnStep(m1, c, q);
        HoldsOne(m1.cpus[c], q);
      } else if evs[n].cpu == c {
        BusyIgnores(m1, evs[n], c, q);
      } else {
        OthersStep(m1, evs[n], c);
      }
    }
  }

  lemma HoldsOne(pc: PC, q: nat)
    requires Holds(pc, q)
    ensures pc.In? || pc.Out?
  {
  }

  /** A CPU inside a queue cannot be given another job. */
  lemma BusyIgnores(m: Machine, ev: Event, c: nat, q: nat)
    requires c < |m.cpus| && Holds(m.cpus[c], q) && ev.Call? && ev.cpu == c
    ensures Step(m, ev) == m
  {
  }

  /** Whoever holds a queue's lock gives it back after at most five steps of its own, whatever the other
      CPUs do in between. */
  lemma HolderReleases(m: Machine, evs: seq<Event>, c: nat, q: nat)
    requires Inv(m) && c < |m.cpus| && Holds(m.cpus[c], q) && Moves(evs, c) >= 5
    ensures exists i :: 0 <= i <= |evs| && Released(m, evs, c, q, i)
  {
    hide Inv, Released, Moves;
    if forall i :: 0 <= i <= |evs| ==> !Released(m, evs, c, q, i) {
      CountsDown(m, evs, c, q);
      AtLeastOne(After(m, evs).cpus[c], q);
    }
  }

  lemma AtLeastOne(pc: PC, q: nat)
    requires Holds(pc, q)
    ensures StepsLeft(pc) >= 1
  {
  }

  // ---------------------------------------------------------------- one operation, undisturbed

  /** `n` steps of CPU `c` in a row. */
  function Moved(m: Machine, c: nat, n: nat): Machine
    decreases n
  {
    if n == 0 then m else Moved(Step(m, Move(c)), c, n - 1)
  }

  /** An idle CPU and a queue nobody holds. */
  ghost predicate Quiet(m: Machine, c: nat, q: nat) {
    Inv(m) && c < |m.cpus| && m.cpus[c].Idle? && q < |m.locks| && !m.locks[q]
  }

  /** What an unlocked queue holds. */
  lemma QueueIs(m: Machine, c: nat, q: nat)
    requires Quiet(m, c, q)
    ensures |m.locks| == |m.rings| == |m.owner| == |m.enq| == |m.deq| && |m.cpus| == |m.gave| == |m.got| && m.owner[q].None?
    ensures m.deq[q] <= m.enq[q] && RingIs(m.rings[q], m.enq[q][|m.deq[q]|..])
    ensures var r := m.rings[q]; |r.tasks| == 64 && r.head < 64 && r.tail < 64 && r.count == |m.enq[q]| - |m.deq[q]| <= 64
  {
    hide SlotIs;
    assert QueueOk(m, q);
  }

  /** The lock is taken at once. */
  lemma Starts(m: Machine, c: nat, q: nat, job: Job, trying: bool)
    requires Quiet(m, c, q) && !job.Steal?
    ensures q < |m.owner| && q < |m.rings|
    ensures Step(Step(m, Call(c, q, job, trying)), Move(c)) ==
            m.(locks := m.locks[q := true], owner := m.owner[q := Some(c)], cpus := m.cpus[c := In(q, job, 0, m.rings[q], None)])
  {
    hide Inv, Work;
    QueueIs(m, c, q);
    assert m.cpus[c := Want(q, job, trying)][c := In(q, job, 0, m.rings[q], None)] == m.cpus[c := In(q, job, 0, m.rings[q], None)];
  }

  /** A step inside, and the step that gives the lock back. */
  lemma Works(m: Machine, c: nat, q: nat, pc: PC, r: Ring)
    requires c < |m.cpus| && m.cpus[c] == pc && pc.In? && pc.q == q && q < |m.rings| && q < |m.enq| && q < |m.deq| && m.rings[q] == r
    requires |r.tasks| == CAPACITY && r.head < CAPACITY && r.tail < CAPACITY
    ensures var w := Work(pc, r);
      Step(m, Move(c)) == m.(rings := m.rings[q := w.ring], cpus := m.cpus[c := w.pc],
                             enq := m.enq[q := m.enq[q] + w.put], deq := m.deq[q := m.deq[q] + w.taken])
  {
    hide Work;
  }

  lemma Ends(m: Machine, c: nat, q: nat, job: Job, result: Outcome)
    requires c < |m.cpus| && m.cpus[c] == Out(q, job, result) && !job.Steal?
    requires q < |m.locks| && q < |m.owner| && c < |m.gave| && c < |m.got|
    ensures Step(m, Move(c)) ==
      m.(locks := m.locks[q := false], owner := m.owner[q := None], cpus := m.cpus[c := Idle],
         gave := m.gave[c := m.gave[c] + if job.Enq? && result == Accepted then [job.task] else []],
         got := m.got[c := m.got[c] + if !job.Look? && result.Got? then [result.task] else []])
  {
  }

  /** The machine is `m` but for the ring of `q` and the books of `q` and `c`. */
  ghost predicate OnlyBooks(m: Machine, m': Machine, q: nat, put: seq<Task>, taken: seq<Task>, c: nat, gave: seq<Task>, got: seq<Task>)
    requires q < |m.enq| && q < |m.deq| && q < |m.rings| && q < |m'.rings| && c < |m.gave| && c < |m.got|
  {
    && m'.locks == m.locks && m'.owner == m.owner && m'.cpus == m.cpus && m'.rings == m.rings[q := m'.rings[q]]
    && m'.enq == m.enq[q := m.enq[q] + put] && m'.deq == m.deq[q := m.deq[q] + taken]
    && m'.gave == m.gave[c := m.gave[c] + gave] && m'.got == m.got[c := m.got[c] + got]
  }

  /** enqueue: the task is queued last and its CPU told so, or, with 64 tasks queued, nothing changes. */
  lemma EnqueueAlone(m: Machine, c: nat, q: nat, t: Task, trying: bool)
    requires Quiet(m, c, q)
    ensures |m.locks| == |m.rings| == |m.enq| == |m.deq| && |m.cpus| == |m.gave| == |m.got|
    ensures var m' := Moved(Step(m, Call(c, q, Enq(t), trying)), c, 5);
      q < |m'.rings| &&
      if |m.enq[q]| - |m.deq[q]| < 64 then OnlyBooks(m, m', q, [t], [], c, [t], []) else OnlyBooks(m, m', q, [], [], c, [], [])
  {
    hide Inv, Step, Work, RingIs, Moved;
    QueueIs(m, c, q);
    Starts(m, c, q, Enq(t), trying);
    var m0 := Step(m, Call(c, q, Enq(t), trying));
    Moves5(m0, c);
    var m1 := Step(m0, Move(c));
    var r, pc := m.rings[q], m1.cpus[c];
    Works(m1, c, q, pc, r);
    var m2 := Step(m1, Move(c));
    EnqWork(pc, r);
    if r.count < 64 {
      var r2, r3 := m2.rings[q], r.(tasks := r.tasks[r.tail := Some(t)], tail := (r.tail + 1) % CAPACITY);
      Works(m2, c, q, m2.cpus[c], r2);
      var m3 := Step(m2, Move(c));
      Works(m3, c, q, m3.cpus[c], r3);
      var m4 := Step(m3, Move(c));
      Ends(m4, c, q, Enq(t), Accepted);
      var m5 := Step(m4, Move(c));
      assert m.enq[q] + [] + [] + [t] == m.enq[q] + [t] && m.deq[q] + [] + [] + [] == m.deq[q] + [];
      assert m5.locks == m.locks && m5.owner == m.owner && m5.cpus == m.cpus && m5.rings == m.rings[q := m5.rings[q]];
      assert m5.enq == m.enq[q := m.enq[q] + [t]] && m5.deq == m.deq[q := m.deq[q] + []];
    } else {
      Ends(m2, c, q, Enq(t), Refused);
      var m3 := Step(m2, Move(c));
      IdleStays(m3, c);
    }
  }

  lemma {:induction false} OneMore(m: Machine, c: nat, n: nat)
    ensures Moved(m, c, n + 1) == Step(Moved(m, c, n), Move(c))
    decreases n
  {
    hide Step;
    if n > 0 { OneMore(Step(m, Move(c)), c, n - 1); }
  }

  lemma Moves5(m: Machine, c: nat)
    ensures var m1 := Step(m, Move(c)); var m2 := Step(m1, Move(c)); var m3 := Step(m2, Move(c)); var m4 := Step(m3, Move(c));
      Moved(m, c, 2) == m2 && Moved(m, c, 3) == m3 && Moved(m, c, 5) == Step(m4, Move(c)) && Moved(m, c, 6) == Step(Moved(m, c, 5), Move(c))
  {
    hide Step;
    assert Moved(m, c, 0) == m;
    hide Moved;
    OneMore(m, c, 0);
    OneMore(m, c, 1);
    OneMore(m, c, 2);
    OneMore(m, c, 3);
    OneMore(m, c, 4);
    OneMore(m, c, 5);
  }

  lemma IdleStays(m: Machine, c: nat)
    requires c < |m.cpus| && m.cpus[c].Idle?
    ensures Step(m, Move(c)) == m
  {
  }

  lemma EnqWork(pc: PC, r: Ring)
    requires pc.In? && pc.job.Enq? && pc.phase == 0 && |r.tasks| == CAPACITY && r.head < CAPACITY && r.tail < CAPACITY
    ensures r.count >= 64 ==> Work(pc, r) == Inside(Out(pc.q, pc.job, Refused), r, [], [])
    ensures r.count < 64 ==>
      var r2 := r.(tasks := r.tasks[r.tail := Some(pc.job.task)]);
      var r3 := r2.(tail := (r.tail + 1) % CAPACITY);
      && Work(pc, r) == Inside(pc.(phase := 1), r2, [], [])
      && Work(pc.(phase := 1), r2) == Inside(pc.(phase := 2), r3, [], [])
      && Work(pc.(phase := 2), r3) == Inside(Out(pc.q, pc.job, Accepted), r3.(count := r.count + 1), [pc.job.task], [])
  {
  }

  lemma DeqWork(pc: PC, r: Ring, t: Task)
    requires pc.In? && pc.job.Deq? && pc.phase == 0 && |r.tasks| == CAPACITY && r.head < CAPACITY && r.tail < CAPACITY
    requires r.count > 0 && r.tasks[r.head] == Some(t)
    ensures var r2 := r.(tasks := r.tasks[r.head := None]);
      var r3 := r2.(head := (r.head + 1) % CAPACITY);
      var p1 := pc.(phase := 1, val := Some(t));
      && Work(pc, r) == Inside(p1, r, [], []) && Work(p1, r) == Inside(p1.(phase := 2), r2, [], [])
      && Work(p1.(phase := 2), r2) == Inside(p1.(phase := 3), r3, [], [])
      && Work(p1.(phase := 3), r3) == Inside(Out(pc.q, pc.job, Got(t)), r3.(count := r.count - 1), [], [t])
  {
  }

  lemma DeqNothing(pc: PC, r: Ring)
    requires pc.In? && pc.job.Deq? && pc.phase == 0 && |r.tasks| == CAPACITY && r.head < CAPACITY && r.tail < CAPACITY && r.count == 0
    ensures Work(pc, r) == Inside(Out(pc.q, pc.job, Nothing), r, [], [])
  {
  }

  /** dequeue: the oldest task is handed to its CPU and leaves the queue; with none queued nothing changes. */
  lemma DequeueAlone(m: Machine, c: nat, q: nat, trying: bool)
    requires Quiet(m, c, q)
    ensures |m.locks| == |m.rings| == |m.enq| == |m.deq| && |m.cpus| == |m.gave| == |m.got| && m.deq[q] <= m.enq[q]
    ensures var m' := Moved(Step(m, Call(c, q, Deq, trying)), c, 6);
      q < |m'.rings| &&
      if m.enq[q] == m.deq[q] then OnlyBooks(m, m', q, [], [], c, [], [])
      else var t := m.enq[q][|m.deq[q]|]; OnlyBooks(m, m', q, [], [t], c, [], [t])
  {
    hide Inv, Step, Work, RingIs, Moved;
    QueueIs(m, c, q);
    Starts(m, c, q, Deq, trying);
    var m0 := Step(m, Call(c, q, Deq, trying));
    Moves5(m0, c);
    var m1 := Step(m0, Move(c));
    var r, pc := m.rings[q], m1.cpus[c];
    Works(m1, c, q, pc, r);
    var m2 := Step(m1, Move(c));
    if r.count == 0 {
      DeqNothing(pc, r);
      Ends(m2, c, q, Deq, Nothing);
      var m3 := Step(m2, Move(c));
      IdleStays(m3, c);
      assert m3.locks == m.locks && m3.owner == m.owner && m3.cpus == m.cpus && m3.rings == m.rings[q := m3.rings[q]];
    } else {
      var t := m.enq[q][|m.deq[q]|];
      HeadRing(r, m.enq[q][|m.deq[q]|..]);
      DeqWork(pc, r, t);
      Works(m2, c, q, m2.cpus[c], r);
      var m3 := Step(m2, Move(c));
      Works(m3, c, q, m3.cpus[c], m3.rings[q]);
      var m4 := Step(m3, Move(c));
      Works(m4, c, q, m4.cpus[c], m4.rings[q]);
      var m5 := Step(m4, Move(c));
      Ends(m5, c, q, Deq, Got(t));
      var m6 := Step(m5, Move(c));
      assert m.enq[q] + [] + [] + [] + [] == m.enq[q] + [] && m.deq[q] + [] + [] + [] + [t] == m.deq[q] + [t];
      assert m6.locks == m.locks && m6.owner == m.owner && m6.cpus == m.cpus && m6.rings == m.rings[q := m6.rings[q]];
      assert m6.enq == m.enq[q := m.enq[q] + []] && m6.deq == m.deq[q := m.deq[q] + [t]];
    }
  }

  /** peek: its CPU is told the oldest task, or that there is none, and nothing changes. */
  lemma LookAlone(m: Machine, c: nat, q: nat, trying: bool)
    requires Quiet(m, c, q)
    ensures |m.locks| == |m.rings| == |m.enq| == |m.deq| && |m.cpus| == |m.gave| == |m.got| && m.deq[q] <= m.enq[q]
    ensures var m0 := Step(m, Call(c, q, Look, trying));
      && |Moved(m0, c, 2).cpus| == |m.cpus| && |Moved(m0, c, 3).rings| == |m.rings|
      && Moved(m0, c, 2).cpus[c] == Out(q, Look, if m.enq[q] == m.deq[q] then Nothing else Got(m.enq[q][|m.deq[q]|]))
      && OnlyBooks(m, Moved(m0, c, 3), q, [], [], c, [], [])
  {
    hide Inv, Step, RingIs, Moved;
    QueueIs(m, c, q);
    Starts(m, c, q, Look, trying);
    var m0 := Step(m, Call(c, q, Look, trying));
    Moves5(m0, c);
    var m1 := Step(m0, Move(c));
    var r, pc := m.rings[q], m1.cpus[c];
    HeadRing(r, m.enq[q][|m.deq[q]|..]);
    Works(m1, c, q, pc, r);
    var m2 := Step(m1, Move(c));
    Ends(m2, c, q, Look, m2.cpus[c].result);
    var m3 := Step(m2, Move(c));
    assert m3.locks == m.locks && m3.owner == m.owner && m3.cpus == m.cpus && m3.rings == m.rings[q := m3.rings[q]];
  }

  /** A lock that is taken: try_lock gives up, lock keeps trying. */
  lemma FindsLocked(m: Machine, c: nat, q: nat, job: Job, trying: bool)
    requires Inv(m) && c < |m.cpus| && m.cpus[c] == Want(q, job, trying) && q < |m.locks| && m.locks[q]
    ensures Step(m, Move(c)) == if trying then m.(cpus := m.cpus[c := Idle]) else m
  {
    hide QueueOk, CpuOk;
  }

  /** load_balance goes through the queues of the other CPUs in order until it gets a task. */
  lemma StealsInOrder(m: Machine, c: nat, q: nat, idle: nat, next: nat)
    requires Inv(m) && c < |m.cpus| && idle < |m.locks| && q < |m.locks|
    ensures m.cpus[c].Idle? && |m.locks| > 1 ==>
      Step(m, Call(c, q, Steal(idle), false)) == m.(cpus := m.cpus[c := Want(if idle == 0 then 1 else 0, Steal(idle), false)])
    ensures m.cpus[c] == Out(q, Steal(idle), Nothing) && q < next < |m.locks| && next == (if q + 1 == idle then q + 2 else q + 1) ==>
      |Step(m, Move(c)).cpus| == |m.cpus| && Step(m, Move(c)).cpus[c] == Want(next, Steal(idle), false)
    ensures forall t: Task :: m.cpus[c] == Out(q, Steal(idle), Got(t)) ==>
      |Step(m, Move(c)).cpus| == |m.cpus| && Step(m, Move(c)).cpus[c] == Idle
  {
    hide QueueOk;
    assert CpuOk(m, c);
  }
}
