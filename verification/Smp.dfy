/**
 Run queues shared between CPUs (src/cpu/scheduler_smp.rs) under compare-and-swap spinlocks
 (src/lib_core/spinlock.rs), as a machine of small interleaved steps. A queue operation is not
 one step: taking the lock, each write to the ring, and giving the lock back are steps of their
 own, and any CPU may move between any two of them.
 */
module Smp {
  import opened Common
  import opened RingBuffers

  /** enqueue_task, dequeue_task, get_next_task, and one round of load_balance. */
  datatype Job = Enq(task: Task) | Deq | Look | Steal(idle: nat)

  datatype Outcome = Accepted | Refused | Got(task: Task) | Nothing

  /** Where a CPU stands. `was` is the ring at the time the lock was taken and `val` the task read
      from it. */
  datatype PC =
    | Idle
    | Want(q: nat, job: Job, trying: bool)
    | In(q: nat, job: Job, phase: nat, was: Ring, val: Option<Task>)
    | Out(q: nat, job: Job, result: Outcome)

  /** `owner`, `enq`, `deq`, `gave` and `got` are bookkeeping: who took each lock; the tasks that each
      queue has accepted and handed out so far, in order; and, for each CPU, the tasks it was told are
      accepted and the tasks that were returned to it. */
  datatype Machine = Machine(
    locks: seq<bool>, rings: seq<Ring>, cpus: seq<PC>,
    owner: seq<Option<nat>>, enq: seq<seq<Task>>, deq: seq<seq<Task>>, gave: seq<seq<Task>>, got: seq<seq<Task>>)

  /** Call: an idle CPU starts a job on queue `q` (with try_lock if `trying`). Move: one step. */
  datatype Event = Call(cpu: nat, q: nat, job: Job, trying: bool) | Move(cpu: nat)

  // ---------------------------------------------------------------- steps

  /** The next queue to steal from, at or after `i`. */
  function Victim(idle: nat, i: nat, n: nat): (r: Option<nat>)
    ensures r.Some? ==> r.value < n && r.value != idle && (r.value == i || (i == idle && r.value == i + 1))
    ensures r.None? ==> i >= n || i == idle == n - 1
    decreases if i <= n then n - i else 0
  {
    if i >= n then None else if i == idle then Victim(idle, i + 1, n) else Some(i)
  }

  /** The CPU goes on to queue `v`, or is done. */
  function Onward(v: Option<nat>, job: Job): PC { if v.Some? then Want(v.value, job, false) else Idle }

  datatype Inside = Inside(pc: PC, ring: Ring, put: seq<Task>, taken: seq<Task>)

  /** One step inside the critical section: one write to the ring, or the decision to leave. */
  function Work(pc: PC, r: Ring): Inside
    requires pc.In? && |r.tasks| == CAPACITY && r.head < CAPACITY && r.tail < CAPACITY
  {
    match pc.job
    case Enq(t) =>
      if pc.phase == 0 then
        if r.count >= CAPACITY then Inside(Out(pc.q, pc.job, Refused), r, [], [])
        else Inside(pc.(phase := 1), r.(tasks := r.tasks[r.tail := Some(t)]), [], [])
      else if pc.phase == 1 then
        Inside(pc.(phase := 2), r.(tail := (r.tail + 1) % CAPACITY), [], [])
      else
        Inside(Out(pc.q, pc.job, Accepted), r.(count := r.count + 1), [t], [])
    case Look =>
      Inside(Out(pc.q, pc.job, if r.tasks[r.head].Some? then Got(r.tasks[r.head].value) else Nothing), r, [], [])
    case _ =>
      if pc.phase == 0 then
        if r.count == 0 then Inside(Out(pc.q, pc.job, Nothing), r, [], [])
        else Inside(pc.(phase := 1, val := r.tasks[r.head]), r, [], [])
      else if pc.phase == 1 then
        Inside(pc.(phase := 2), r.(tasks := r.tasks[r.head := None]), [], [])
      else if pc.phase == 2 then
        Inside(pc.(phase := 3), r.(head := (r.head + 1) % CAPACITY), [], [])
      else
        var t := if pc.val.Some? then [pc.val.value] else [];
        Inside(Out(pc.q, pc.job, if pc.val.Some? then Got(pc.val.value) else Nothing),
               r.(count := if r.count > 0 then r.count - 1 else 0), [], t)
  }

  // ---------------------------------------------------------------- the invariant

  predicate Holds(pc: PC, q: nat) { (pc.In? || pc.Out?) && pc.q == q }

  /** The ring as the holder has left it so far, from the ring it found. */
  ghost predicate Partial(pc: PC, r: Ring, c: seq<Task>)
    requires pc.In?
  {
    && RingIs(pc.was, c)
    && match pc.job
       case Enq(t) =>
         && (pc.phase > 0 ==> pc.was.count < CAPACITY)
         && r == if pc.phase == 0 then pc.was
                 else if pc.phase == 1 then pc.was.(tasks := pc.was.tasks[pc.was.tail := Some(t)])
                 else pc.was.(tasks := pc.was.tasks[pc.was.tail := Some(t)], tail := (pc.was.tail + 1) % CAPACITY)
       case Look => r == pc.was
       case _ =>
         && (pc.phase > 0 ==> pc.was.count > 0 && pc.val == pc.was.tasks[pc.was.head])
         && r == if pc.phase <= 1 then pc.was
                 else if pc.phase == 2 then pc.was.(tasks := pc.was.tasks[pc.was.head := None])
                 else pc.was.(tasks := pc.was.tasks[pc.was.head := None], head := (pc.was.head + 1) % CAPACITY)
  }

  predicate LastIs(s: seq<Task>, t: Task) { s != [] && s[|s| - 1] == t }

  /** What a CPU about to give the lock back reports: what it queued, took or saw. */
  ghost predicate Reported(job: Job, result: Outcome, e: seq<Task>, d: seq<Task>)
    requires d <= e
  {
    match result
    case Accepted => job.Enq? && LastIs(e, job.task)
    case Refused => job.Enq? && |e| - |d| == CAPACITY
    case Got(t) => if job.Look? then |d| < |e| && e[|d|] == t else !job.Enq? && LastIs(d, t)
    case Nothing => !job.Enq? && |d| == |e|
  }

  ghost predicate PhaseOk(pc: PC, r: Ring, e: seq<Task>, d: seq<Task>)
    requires d <= e
  {
    match pc
    case In(_, _, _, _, _) => Partial(pc, r, e[|d|..])
    case Out(_, job, result) => RingIs(r, e[|d|..]) && Reported(job, result, e, d)
    case _ => false
  }

  /** One queue: hand-outs are a prefix of what was accepted, the rest is in the ring, and the lock
      is taken exactly while its owner is inside. */
  ghost predicate QueueOk(m: Machine, q: nat)
    requires q < |m.locks| == |m.rings| == |m.owner| == |m.enq| == |m.deq|
  {
    && (m.locks[q] <==> m.owner[q].Some?)
    && m.deq[q] <= m.enq[q]
    && (m.owner[q].None? ==> RingIs(m.rings[q], m.enq[q][|m.deq[q]|..]))
    && (m.owner[q].Some? ==> m.owner[q].value < |m.cpus| && Holds(m.cpus[m.owner[q].value], q)
                             && PhaseOk(m.cpus[m.owner[q].value], m.rings[q], m.enq[q], m.deq[q]))
  }

  predicate CpuOk(m: Machine, c: nat)
    requires c < |m.cpus|
  {
    match m.cpus[c]
    case Idle => true
    case Want(q, _, _) => q < |m.locks|
    case In(q, _, _, _, _) => q < |m.owner| && m.owner[q] == Some(c)
    case Out(q, _, _) => q < |m.owner| && m.owner[q] == Some(c)
  }

  ghost predicate Inv(m: Machine) {
    && |m.locks| == |m.rings| == |m.owner| == |m.enq| == |m.deq| && |m.cpus| == |m.gave| == |m.got|
    && (forall q: nat :: q < |m.locks| ==> QueueOk(m, q))
    && (forall c: nat :: c < |m.cpus| ==> CpuOk(m, c))
  }

  /** Rings stay in bounds even in the middle of an operation. */
  lemma InBounds(pc: PC, r: Ring, e: seq<Task>, d: seq<Task>)
    requires d <= e && pc.In? && PhaseOk(pc, r, e, d)
    ensures |r.tasks| == CAPACITY && r.head < CAPACITY && r.tail < CAPACITY
  {
    TailSlot(pc.was, e[|d|..]);
  }

  /** The task a leaving CPU is about to be told is accepted. */
  function Owed(pc: PC): seq<Task> { if pc.Out? && pc.job.Enq? && pc.result == Accepted then [pc.job.task] else [] }

  /** The task a leaving CPU has taken out of a queue, for itself or as a thief. */
  function Brought(pc: PC): seq<Task> { if pc.Out? && !pc.job.Look? && pc.result.Got? then [pc.result.task] else [] }

  function Step(m: Machine, ev: Event): Machine {
    match ev
    case Call(c, q, job, trying) =>
      if c >= |m.cpus| || !m.cpus[c].Idle? then m
      else if job.Steal? then m.(cpus := m.cpus[c := Onward(Victim(job.idle, 0, |m.locks|), job)])
      else if q >= |m.locks| then m
      else m.(cpus := m.cpus[c := Want(q, job, trying)])
    case Move(c) =>
      if c >= |m.cpus| then m
      else
        match m.cpus[c]
        case Idle => m
        case Want(q, job, trying) =>
          if q >= |m.locks| || q >= |m.rings| || q >= |m.owner| then m
          else if m.locks[q] then (if trying then m.(cpus := m.cpus[c := Idle]) else m)
          else m.(locks := m.locks[q := true], owner := m.owner[q := Some(c)],
                  cpus := m.cpus[c := In(q, job, 0, m.rings[q], None)])
        case In(q, _, _, _, _) => StepInside(m, c)
        case Out(q, job, result) =>
          if q >= |m.locks| || q >= |m.owner| || c >= |m.gave| || c >= |m.got| then m
          else m.(locks := m.locks[q := false], owner := m.owner[q := None],
                  gave := m.gave[c := m.gave[c] + Owed(m.cpus[c])], got := m.got[c := m.got[c] + Brought(m.cpus[c])],
                  cpus := m.cpus[c := if job.Steal? && result == Nothing then Onward(Victim(job.idle, q + 1, |m.locks|), job) else Idle])
  }

  function StepInside(m: Machine, c: nat): Machine
    requires c < |m.cpus| && m.cpus[c].In?
  {
    var q := m.cpus[c].q;
    if q >= |m.rings| || q >= |m.enq| || q >= |m.deq| then m
    else
      var r := m.rings[q];
      if |r.tasks| != CAPACITY || r.head >= CAPACITY || r.tail >= CAPACITY then m
      else
        var w := Work(m.cpus[c], r);
        m.(rings := m.rings[q := w.ring], cpus := m.cpus[c := w.pc],
           enq := m.enq[q := m.enq[q] + w.put], deq := m.deq[q := m.deq[q] + w.taken])
  }

  /** The inside of one critical section, start to end, is the FIFO operation. */
  lemma WorkOk(pc: PC, r: Ring, e: seq<Task>, d: seq<Task>)
    requires d <= e && pc.In? && PhaseOk(pc, r, e, d)
    ensures |r.tasks| == CAPACITY && r.head < CAPACITY && r.tail < CAPACITY
    ensures var w := Work(pc, r);
      && (w.pc.In? || w.pc.Out?) && w.pc.q == pc.q
      && d + w.taken <= e + w.put && PhaseOk(w.pc, w.ring, e + w.put, d + w.taken)
  {
    InBounds(pc, r, e, d);
    match pc.job
    case Enq(t) => WorkEnq(pc, r, e, d);
    case Look => WorkLook(pc, r, e, d);
    case _ => WorkDeq(pc, r, e, d);
  }

  lemma WorkEnq(pc: PC, r: Ring, e: seq<Task>, d: seq<Task>)
    requires d <= e && pc.In? && pc.job.Enq? && PhaseOk(pc, r, e, d)
    requires |r.tasks| == CAPACITY && r.head < CAPACITY && r.tail < CAPACITY
    ensures var w := Work(pc, r);
      && (w.pc.In? || w.pc.Out?) && w.pc.q == pc.q
      && d + w.taken <= e + w.put && PhaseOk(w.pc, w.ring, e + w.put, d + w.taken)
  {
    hide SlotIs;
    var w := Work(pc, r);
    var c := e[|d|..];
    assert d + [] == d && e + [] == e;
    if pc.phase >= 2 {
      EnqueueRing(pc.was, c, pc.job.task);
      assert (e + [pc.job.task])[|d|..] == c + [pc.job.task];
    }
  }

  lemma WorkLook(pc: PC, r: Ring, e: seq<Task>, d: seq<Task>)
    requires d <= e && pc.In? && pc.job.Look? && PhaseOk(pc, r, e, d)
    requires |r.tasks| == CAPACITY && r.head < CAPACITY && r.tail < CAPACITY
    ensures var w := Work(pc, r);
      && w.pc.Out? && w.pc.q == pc.q && w.taken == [] && w.put == []
      && d + [] <= e + [] && PhaseOk(w.pc, w.ring, e + [], d + [])
  {
    hide SlotIs;
    HeadRing(r, e[|d|..]);
    assert d + [] == d && e + [] == e;
  }

  lemma WorkDeq(pc: PC, r: Ring, e: seq<Task>, d: seq<Task>)
    requires d <= e && pc.In? && !pc.job.Enq? && !pc.job.Look? && PhaseOk(pc, r, e, d)
    requires |r.tasks| == CAPACITY && r.head < CAPACITY && r.tail < CAPACITY
    ensures var w := Work(pc, r);
      && (w.pc.In? || w.pc.Out?) && w.pc.q == pc.q
      && d + w.taken <= e + w.put && PhaseOk(w.pc, w.ring, e + w.put, d + w.taken)
  {
    hide SlotIs;
    var w := Work(pc, r);
    var c := e[|d|..];
    assert d + [] == d && e + [] == e;
    if pc.phase >= 3 {
      DequeueRing(pc.was, c);
      assert e[|d| + 1..] == c[1..];
    }
  }

  // ---------------------------------------------------------------- every step keeps it

  /** Two machines that agree except in queue `q` and CPU `c`. */
  ghost predicate Local(m: Machine, m': Machine, c: nat, q: nat)
    requires |m.locks| == |m.rings| == |m.owner| == |m.enq| == |m.deq|
  {
    && |m'.locks| == |m'.rings| == |m'.owner| == |m'.enq| == |m'.deq| == |m.locks|
    && |m'.cpus| == |m.cpus| && |m'.gave| == |m.gave| && |m'.got| == |m.got|
    && (forall x: nat :: x < |m.locks| && x != q ==> SameQueue(m, m', x))
    && (forall d: nat :: d < |m.cpus| && d != c ==> m'.cpus[d] == m.cpus[d])
  }

  ghost predicate SameQueue(m: Machine, m': Machine, x: nat)
    requires x < |m.locks| == |m.rings| == |m.owner| == |m.enq| == |m.deq|
    requires x < |m'.locks| == |m'.rings| == |m'.owner| == |m'.enq| == |m'.deq|
  {
    m'.locks[x] == m.locks[x] && m'.rings[x] == m.rings[x] && m'.owner[x] == m.owner[x]
    && m'.enq[x] == m.enq[x] && m'.deq[x] == m.deq[x]
  }

  /** A step by `c` on a queue that nobody else holds need only be right locally. */
  lemma LocalOk(m: Machine, m': Machine, c: nat, q: nat)
    requires Inv(m) && c < |m.cpus| && q < |m.locks| && Local(m, m', c, q)
    requires m.owner[q] == None || m.owner[q] == Some(c)
    requires forall x: nat :: x != q ==> !Holds(m.cpus[c], x)
    requires QueueOk(m', q) && CpuOk(m', c)
    ensures Inv(m')
  {
    hide RingIs, PhaseOk;
    forall x: nat | x < |m'.locks| ensures QueueOk(m', x) {
      if x != q {
        assert QueueOk(m, x) && SameQueue(m, m', x);
      }
    }
    forall d: nat | d < |m'.cpus| ensures CpuOk(m', d) {
      assert CpuOk(m, d);
      if d != c && (m.cpus[d].In? || m.cpus[d].Out?) && m.cpus[d].q != q { assert SameQueue(m, m', m.cpus[d].q); }
    }
  }

  /** A CPU that holds nothing may change its mind freely. */
  lemma CpuOnly(m: Machine, c: nat, pc: PC)
    requires Inv(m) && c < |m.cpus| && !m.cpus[c].In? && !m.cpus[c].Out?
    requires pc.Idle? || (pc.Want? && pc.q < |m.locks|)
    ensures Inv(m.(cpus := m.cpus[c := pc]))
  {
    hide RingIs, PhaseOk;
    var m' := m.(cpus := m.cpus[c := pc]);
    forall x: nat | x < |m'.locks| ensures QueueOk(m', x) { assert QueueOk(m, x); }
    forall d: nat | d < |m'.cpus| ensures CpuOk(m', d) { assert CpuOk(m, d); }
  }

  lemma AcquireOk(m: Machine, c: nat)
    requires Inv(m) && c < |m.cpus| && m.cpus[c].Want? && m.cpus[c].q < |m.locks| && !m.locks[m.cpus[c].q]
    ensures Inv(Step(m, Move(c)))
  {
    hide RingIs;
    var q := m.cpus[c].q;
    assert QueueOk(m, q);
    LocalOk(m, Step(m, Move(c)), c, q);
  }

  lemma InsideOk(m: Machine, c: nat)
    requires Inv(m) && c < |m.cpus| && m.cpus[c].In?
    ensures Inv(StepInside(m, c))
  {
    hide RingIs, PhaseOk, Work;
    var q := m.cpus[c].q;
    assert CpuOk(m, c);
    assert QueueOk(m, q);
    WorkOk(m.cpus[c], m.rings[q], m.enq[q], m.deq[q]);
    LocalOk(m, StepInside(m, c), c, q);
  }

  lemma ReleaseOk(m: Machine, c: nat)
    requires Inv(m) && c < |m.cpus| && m.cpus[c].Out?
    ensures Inv(Step(m, Move(c)))
  {
    hide RingIs, Reported, StepInside;
    var q := m.cpus[c].q;
    assert CpuOk(m, c);
    assert QueueOk(m, q);
    LocalOk(m, Step(m, Move(c)), c, q);
  }

  /** Every step of every CPU keeps the invariant. */
  lemma StepOk(m: Machine, ev: Event)
    requires Inv(m)
    ensures Inv(Step(m, ev))
  {
    hide QueueOk, StepInside;
    match ev
    case Call(c, q, job, trying) =>
      if c < |m.cpus| && m.cpus[c].Idle? {
        if job.Steal? {
          CpuOnly(m, c, Onward(Victim(job.idle, 0, |m.locks|), job));
        } else if q < |m.locks| {
          CpuOnly(m, c, Want(q, job, trying));
        }
      }
    case Move(c) =>
      if c < |m.cpus| {
        assert CpuOk(m, c);
        match m.cpus[c]
        case Idle =>
        case Want(q, job, trying) =>
          if m.locks[q] { CpuOnly(m, c, Idle); } else { AcquireOk(m, c); }
        case In(q, _, _, _, _) => InsideOk(m, c);
        case Out(q, _, _) => ReleaseOk(m, c);
      }
  }

  // ---------------------------------------------------------------- whole runs

  /** `n` empty queues and `cpus` idle CPUs. */
  function Boot(n: nat, cpus: nat): Machine {
    Machine(seq(n, _ => false), seq(n, _ => Ring(seq(CAPACITY, _ => None), 0, 0, 0)), seq(cpus, _ => Idle),
            seq(n, _ => None), seq(n, _ => []), seq(n, _ => []), seq(cpus, _ => []), seq(cpus, _ => []))
  }

  lemma BootOk(n: nat, cpus: nat)
    ensures Inv(Boot(n, cpus))
  {
    hide SlotIs;
    EmptyRing(0);
  }

  ghost function After(m: Machine, evs: seq<Event>): (m': Machine)
    requires Inv(m)
    ensures Inv(m')
    decreases |evs|
  {
    if evs == [] then m
    else
      var m1 := After(m, evs[..|evs| - 1]);
      StepOk(m1, evs[|evs| - 1]);
      Step(m1, evs[|evs| - 1])
  }

  /** In every interleaving, at most one CPU is inside a queue's critical section. */
  lemma MutualExclusion(n: nat, cpus: nat, evs: seq<Event>, q: nat, c: nat, d: nat)
    ensures Inv(Boot(n, cpus))
    ensures var m := After(Boot(n, cpus), evs);
      c < |m.cpus| && d < |m.cpus| && Holds(m.cpus[c], q) && Holds(m.cpus[d], q) ==> c == d && q < |m.locks| && m.locks[q]
  {
    hide QueueOk;
    BootOk(n, cpus);
    var m := After(Boot(n, cpus), evs);
    if c < |m.cpus| && d < |m.cpus| && Holds(m.cpus[c], q) && Holds(m.cpus[d], q) {
      assert CpuOk(m, c) && CpuOk(m, d);
      OwnedLocked(m, q);
    }
  }

  lemma OwnedLocked(m: Machine, q: nat)
    requires Inv(m) && q < |m.locks|
    ensures m.locks[q] <==> m.owner[q].Some?
  {
    hide RingIs, PhaseOk;
    assert QueueOk(m, q);
  }

  /** Whenever a queue is not locked, its ring holds exactly what was accepted and not yet handed
      out, in order; and hand-outs always come in the order of acceptance. */
  lemma FirstInFirstOut(n: nat, cpus: nat, evs: seq<Event>, q: nat)
    requires q < n
    ensures Inv(Boot(n, cpus))
    ensures var m := After(Boot(n, cpus), evs);
      && q < |m.locks| == |m.rings| == |m.enq| == |m.deq|
      && m.deq[q] <= m.enq[q]
      && (!m.locks[q] ==> RingIs(m.rings[q], m.enq[q][|m.deq[q]|..]))
  {
    hide RingIs, PhaseOk;
    BootOk(n, cpus);
    SizesKept(Boot(n, cpus), evs);
    assert QueueOk(After(Boot(n, cpus), evs), q);
  }

  lemma {:induction false} SizesKept(m: Machine, evs: seq<Event>)
    requires Inv(m)
    ensures |After(m, evs).locks| == |m.locks| && |After(m, evs).cpus| == |m.cpus|
    decreases |evs|
  {
    hide QueueOk, CpuOk, Work;
    if evs != [] { SizesKept(m, evs[..|evs| - 1]); }
  }

  // ---------------------------------------------------------------- conservation

  /** All tasks of all lists. */
  function All(qs: seq<seq<Task>>): multiset<Task> {
    if qs == [] then multiset{} else multiset(qs[0]) + All(qs[1..])
  }

  lemma {:induction false} AllAt(qs: seq<seq<Task>>, i: nat, x: seq<Task>, t: Task)
    requires i < |qs|
    ensures All(qs[i := x])[t] + multiset(qs[i])[t] == All(qs)[t] + multiset(x)[t]
  {
    if i == 0 {
      assert qs[i := x][1..] == qs[1..];
    } else {
      AllAt(qs[1..], i - 1, x, t);
      assert qs[i := x][1..] == qs[1..][i - 1 := x];
    }
  }

  lemma AllUpdate(qs: seq<seq<Task>>, i: nat, x: seq<Task>)
    requires i < |qs|
    ensures All(qs[i := x]) + multiset(qs[i]) == All(qs) + multiset(x)
  {
    hide All;
    var a, b := All(qs[i := x]) + multiset(qs[i]), All(qs) + multiset(x);
    forall t: Task ensures a[t] == b[t] { AllAt(qs, i, x, t); }
  }

  lemma AllAppend(qs: seq<seq<Task>>, i: nat, x: seq<Task>)
    requires i < |qs|
    ensures All(qs[i := qs[i] + x]) == All(qs) + multiset(x)
  {
    hide All;
    var a, b := All(qs[i := qs[i] + x]), All(qs) + multiset(x);
    forall t: Task ensures a[t] == b[t] {
      AllAt(qs, i, qs[i] + x, t);
      assert multiset(qs[i] + x)[t] == multiset(qs[i])[t] + multiset(x)[t];
    }
  }

  lemma {:induction false} AllEmpty(qs: seq<seq<Task>>)
    requires forall i :: 0 <= i < |qs| ==> qs[i] == []
    ensures All(qs) == multiset{}
  {
    if qs != [] { AllEmpty(qs[1..]); }
  }

  lemma {:induction false} Split(enq: seq<seq<Task>>, deq: seq<seq<Task>>, hand: seq<seq<Task>>, rest: seq<seq<Task>>)
    requires |enq| == |deq| == |hand| == |rest| && forall q :: 0 <= q < |enq| ==> enq[q] == deq[q] + hand[q] + rest[q]
    ensures All(enq) == All(deq) + All(hand) + All(rest)
  {
    if enq != [] { Split(enq[1..], deq[1..], hand[1..], rest[1..]); }
  }

  /** Per CPU: accepted but not yet told; taken but not yet returned. */
  function Owing(cpus: seq<PC>): (r: seq<seq<Task>>)
    ensures |r| == |cpus| && forall c :: 0 <= c < |cpus| ==> r[c] == Owed(cpus[c])
  {
    seq(|cpus|, c requires 0 <= c < |cpus| => Owed(cpus[c]))
  }

  function Bringing(cpus: seq<PC>): (r: seq<seq<Task>>)
    ensures |r| == |cpus| && forall c :: 0 <= c < |cpus| ==> r[c] == Brought(cpus[c])
  {
    seq(|cpus|, c requires 0 <= c < |cpus| => Brought(cpus[c]))
  }

  /** What queues have accepted is what CPUs were told, or are about to be; what queues handed out is
      what CPUs got, or are about to get. */
  ghost predicate Told(m: Machine) {
    && All(m.enq) == All(m.gave) + All(Owing(m.cpus))
    && All(m.deq) == All(m.got) + All(Bringing(m.cpus))
  }

  /** A CPU that neither leaves nor enters the last step changes nothing here. */
  lemma ToldQuiet(m: Machine, c: nat, pc: PC)
    requires c < |m.cpus| && Told(m) && Owed(pc) == Owed(m.cpus[c]) && Brought(pc) == Brought(m.cpus[c])
    ensures Owing(m.cpus[c := pc]) == Owing(m.cpus) && Bringing(m.cpus[c := pc]) == Bringing(m.cpus)
  {
  }

  lemma OwingUpdate(cpus: seq<PC>, c: nat, pc: PC)
    requires c < |cpus|
    ensures Owing(cpus[c := pc]) == Owing(cpus)[c := Owed(pc)] && Bringing(cpus[c := pc]) == Bringing(cpus)[c := Brought(pc)]
  {
  }

  lemma WorkReports(pc: PC, r: Ring)
    requires pc.In? && |r.tasks| == CAPACITY && r.head < CAPACITY && r.tail < CAPACITY
    ensures Owed(Work(pc, r).pc) == Work(pc, r).put && Brought(Work(pc, r).pc) == Work(pc, r).taken
  {
  }

  lemma ToldInside(m: Machine, c: nat)
    requires Inv(m) && Told(m) && c < |m.cpus| && m.cpus[c].In?
    ensures Told(StepInside(m, c))
  {
    hide Work, All, QueueOk, Owing, Bringing;
    var q := m.cpus[c].q;
    assert CpuOk(m, c);
    var r := m.rings[q];
    if |r.tasks| == CAPACITY && r.head < CAPACITY && r.tail < CAPACITY {
      var w := Work(m.cpus[c], r);
      WorkReports(m.cpus[c], r);
      OwingUpdate(m.cpus, c, w.pc);
      AllAppend(m.enq, q, w.put);
      AllAppend(m.deq, q, w.taken);
      AllAppend(Owing(m.cpus), c, w.put);
      AllAppend(Bringing(m.cpus), c, w.taken);
      NoneYet(m.cpus[c]);
      assert [] + w.put == w.put && [] + w.taken == w.taken;
    }
  }

  lemma NoneYet(pc: PC)
    requires !pc.Out?
    ensures Owed(pc) == [] && Brought(pc) == []
  {
  }

  lemma ToldRelease(m: Machine, c: nat)
    requires Inv(m) && Told(m) && c < |m.cpus| && m.cpus[c].Out?
    ensures Told(Step(m, Move(c)))
  {
    hide All, QueueOk, Owing, Bringing, Victim, StepInside, Owed, Brought;
    var pc := m.cpus[c];
    assert CpuOk(m, c);
    var pc' := Step(m, Move(c)).cpus[c];
    NoneYet(pc');
    OwingUpdate(m.cpus, c, pc');
    AllUpdate(Owing(m.cpus), c, []);
    AllUpdate(Bringing(m.cpus), c, []);
    AllAppend(m.gave, c, Owed(pc));
    AllAppend(m.got, c, Brought(pc));
    Shift(All(m.enq), All(m.gave), All(Owing(m.cpus)), All(Owing(m.cpus[c := pc'])), multiset(Owed(pc)));
    Shift(All(m.deq), All(m.got), All(Bringing(m.cpus)), All(Bringing(m.cpus[c := pc'])), multiset(Brought(pc)));
  }

  /** Moving tasks from one side account to another. */
  lemma Shift(total: multiset<Task>, a: multiset<Task>, b: multiset<Task>, b': multiset<Task>, x: multiset<Task>)
    requires total == a + b && b' + x == b + multiset([])
    ensures total == (a + x) + b'
  {
    forall t: Task ensures total[t] == ((a + x) + b')[t] { assert (b' + x)[t] == (b + multiset([]))[t]; }
  }

  lemma StepTold(m: Machine, ev: Event)
    requires Inv(m) && Told(m)
    ensures Told(Step(m, ev))
  {
    hide Inv, All, Owing, Bringing, Owed, Brought, Work;
    match ev
    case Call(c, q, job, trying) =>
      if c < |m.cpus| && m.cpus[c].Idle? {
        var pc' := Step(m, ev).cpus[c];
        NoneYet(m.cpus[c]);
        NoneYet(pc');
        ToldQuiet(m, c, pc');
        assert m.cpus[c := m.cpus[c]] == m.cpus;
      }
    case Move(c) =>
      if c < |m.cpus| {
        match m.cpus[c]
        case Idle =>
        case Want(q, job, trying) =>
          var pc' := Step(m, ev).cpus[c];
          NoneYet(m.cpus[c]);
          NoneYet(pc');
          ToldQuiet(m, c, pc');
        case In(q, _, _, _, _) => ToldInside(m, c);
        case Out(q, _, _) => ToldRelease(m, c);
      }
  }

  lemma {:induction false} EveryoneTold(n: nat, cpus: nat, evs: seq<Event>)
    ensures Inv(Boot(n, cpus)) && Told(After(Boot(n, cpus), evs))
    decreases |evs|
  {
    hide Inv, Step, All;
    BootOk(n, cpus);
    if evs == [] {
      var m := Boot(n, cpus);
      AllEmpty(m.enq);
      AllEmpty(m.deq);
      AllEmpty(m.gave);
      AllEmpty(m.got);
      AllEmpty(Owing(m.cpus));
      AllEmpty(Bringing(m.cpus));
    } else {
      EveryoneTold(n, cpus, evs[..|evs| - 1]);
      StepTold(After(Boot(n, cpus), evs[..|evs| - 1]), evs[|evs| - 1]);
    }
  }

  /** The task that a CPU in the middle of taking one has cleared from the ring. */
  function InHand(pc: PC): seq<Task> {
    if pc.In? && !pc.job.Enq? && !pc.job.Look? && pc.phase >= 2 && pc.val.Some? then [pc.val.value] else []
  }

  ghost function Hand(m: Machine, q: nat): seq<Task>
    requires q < |m.owner|
  {
    if m.owner[q].Some? && m.owner[q].value < |m.cpus| then InHand(m.cpus[m.owner[q].value]) else []
  }

  /** A ring in the middle of an operation: what it holds, and what its owner has in hand. */
  lemma PartialHolds(pc: PC, r: Ring, c: seq<Task>)
    requires pc.In? && Partial(pc, r, c)
    ensures Readable(r) && InHand(pc) + Held(r) == c
  {
    hide SlotIs, Found;
    HeldIs(pc.was, c);
    TailSlot(pc.was, c);
    if pc.job.Enq? {
      if pc.phase > 0 { HeldAhead(pc.was, c, pc.job.task, r.tail); }
    } else if !pc.job.Look? && pc.phase >= 2 {
      HeldBehind(pc.was, c);
      assert c == [c[0]] + c[1..];
    }
  }

  /** Each queue has accepted what it handed out, then what is in the owner's hand, then what its
      ring holds, in that order. */
  lemma QueueHolds(m: Machine, q: nat)
    requires Inv(m) && q < |m.locks|
    ensures Readable(m.rings[q]) && m.enq[q] == m.deq[q] + Hand(m, q) + Held(m.rings[q])
    ensures !m.locks[q] ==> Hand(m, q) == []
  {
    hide SlotIs, Found;
    assert QueueOk(m, q);
    var c := m.enq[q][|m.deq[q]|..];
    assert m.enq[q] == m.deq[q] + c;
    if m.owner[q].Some? {
      var pc := m.cpus[m.owner[q].value];
      if pc.In? {
        PartialHolds(pc, m.rings[q], c);
        assert m.deq[q] + (Hand(m, q) + Held(m.rings[q])) == m.deq[q] + Hand(m, q) + Held(m.rings[q]);
      } else {
        HeldIs(m.rings[q], c);
      }
    } else {
      HeldIs(m.rings[q], c);
    }
  }

  /** What the rings hold, and what is in the hands of their owners. */
  ghost function Rings(m: Machine): (r: seq<seq<Task>>)
    ensures |r| == |m.rings| && forall q: nat :: q < |m.rings| ==> r[q] == Held(m.rings[q])
  {
    seq(|m.rings|, q requires 0 <= q < |m.rings| => Held(m.rings[q]))
  }

  ghost function Hands(m: Machine): (r: seq<seq<Task>>)
    ensures |r| == |m.owner| && forall q: nat :: q < |m.owner| ==> r[q] == Hand(m, q)
  {
    seq(|m.owner|, q requires 0 <= q < |m.owner| => Hand(m, q))
  }

  lemma MachineHolds(m: Machine)
    requires Inv(m)
    ensures forall q: nat :: q < |m.rings| ==> Readable(m.rings[q])
    ensures All(m.enq) == All(m.deq) + All(Hands(m)) + All(Rings(m))
  {
    hide QueueOk, CpuOk, All, Hand, Held, Readable;
    forall q: nat | q < |m.rings|
      ensures Readable(m.rings[q]) && m.enq[q] == m.deq[q] + Hand(m, q) + Held(m.rings[q])
    {
      QueueHolds(m, q);
    }
    Split(m.enq, m.deq, Hands(m), Rings(m));
  }

  /** In every interleaving, counted with multiplicity: the tasks CPUs were told are accepted, or are
      about to be, are the tasks read from the rings, plus the one in the hand of each CPU in the
      middle of taking it, plus the tasks returned to CPUs, or about to be. Stealing is no exception. */
  lemma Conservation(n: nat, cpus: nat, evs: seq<Event>)
    ensures Inv(Boot(n, cpus))
    ensures var m := After(Boot(n, cpus), evs);
      && (forall q: nat :: q < |m.rings| ==> Readable(m.rings[q]))
      && All(m.gave) + All(Owing(m.cpus)) == All(Rings(m)) + All(Hands(m)) + All(m.got) + All(Bringing(m.cpus))
  {
    hide Inv, All, Readable, Step;
    EveryoneTold(n, cpus, evs);
    var m := After(Boot(n, cpus), evs);
    MachineHolds(m);
    Regroup(All(m.got), All(Bringing(m.cpus)), All(Hands(m)), All(Rings(m)));
  }

  lemma Regroup(a: multiset<Task>, b: multiset<Task>, c: multiset<Task>, d: multiset<Task>)
    ensures (a + b) + c + d == d + c + a + b
  {
  }

  predicate Outside(pc: PC) { pc.Idle? || pc.Want? }

  /** Whenever no CPU is inside a critical section: accepted tasks are the tasks in the rings plus the
      tasks returned, a stolen one to its thief. */
  lemma QuietConservation(n: nat, cpus: nat, evs: seq<Event>)
    requires Inv(Boot(n, cpus))
    requires forall c: nat :: c < |After(Boot(n, cpus), evs).cpus| ==> Outside(After(Boot(n, cpus), evs).cpus[c])
    ensures var m := After(Boot(n, cpus), evs);
      && (forall q: nat :: q < |m.rings| ==> Readable(m.rings[q]))
      && All(m.gave) == All(Rings(m)) + All(m.got)
  {
    hide All, Readable, Step, QueueOk, CpuOk, Held;
    Conservation(n, cpus, evs);
    var m := After(Boot(n, cpus), evs);
    forall c: nat | c < |m.cpus| ensures Owing(m.cpus)[c] == [] && Bringing(m.cpus)[c] == [] { assert Outside(m.cpus[c]); }
    AllEmpty(Owing(m.cpus));
    AllEmpty(Bringing(m.cpus));
    forall q: nat | q < |m.owner| ensures Hands(m)[q] == [] { HandEmpty(m, q); }
    AllEmpty(Hands(m));
    assert All(m.gave) + multiset{} == All(m.gave);
    assert All(Rings(m)) + multiset{} + All(m.got) + multiset{} == All(Rings(m)) + All(m.got);
  }

  lemma HandEmpty(m: Machine, q: nat)
    requires Inv(m) && q < |m.owner| && forall c: nat :: c < |m.cpus| ==> Outside(m.cpus[c])
    ensures Hand(m, q) == []
  {
    hide QueueOk, CpuOk;
    if m.owner[q].Some? && m.owner[q].value < |m.cpus| { assert Outside(m.cpus[m.owner[q].value]); }
  }

  /** The reports are honest: a CPU leaving with a task took the one handed out last, a CPU told
      "accepted" put its task last, and "full" and "empty" were true. */
  lemma HonestReports(n: nat, cpus: nat, evs: seq<Event>, c: nat)
    ensures Inv(Boot(n, cpus))
    ensures var m := After(Boot(n, cpus), evs);
      c < |m.cpus| && m.cpus[c].Out? ==>
        var q := m.cpus[c].q;
        q < |m.enq| == |m.deq| && m.deq[q] <= m.enq[q] && Reported(m.cpus[c].job, m.cpus[c].result, m.enq[q], m.deq[q])
  {
    hide RingIs, Reported;
    BootOk(n, cpus);
    var m := After(Boot(n, cpus), evs);
    if c < |m.cpus| && m.cpus[c].Out? {
      assert CpuOk(m, c);
      assert QueueOk(m, m.cpus[c].q);
    }
  }

  predicate Skips(pc: PC) { !pc.Idle? && pc.job.Steal? ==> pc.q != pc.job.idle }

  lemma StepSkips(m: Machine, ev: Event, c: nat)
    requires c < |m.cpus| ==> Skips(m.cpus[c])
    ensures c < |Step(m, ev).cpus| ==> Skips(Step(m, ev).cpus[c])
  {
    hide Victim;
    if c < |m.cpus| && m.cpus[c].In? && ev == Move(c) { InsideSkips(m, c); }
  }

  lemma InsideSkips(m: Machine, c: nat)
    requires c < |m.cpus| && m.cpus[c].In? && Skips(m.cpus[c])
    ensures |StepInside(m, c).cpus| == |m.cpus| && Skips(StepInside(m, c).cpus[c])
  {
  }

  /** A thief never takes from its own queue. */
  lemma {:induction false} ThievesSkipThemselves(n: nat, cpus: nat, evs: seq<Event>, c: nat)
    ensures Inv(Boot(n, cpus))
    ensures var m := After(Boot(n, cpus), evs); c < |m.cpus| ==> Skips(m.cpus[c])
    decreases |evs|
  {
    hide Inv, Step;
    BootOk(n, cpus);
    if evs != [] {
      ThievesSkipThemselves(n, cpus, evs[..|evs| - 1], c);
      StepSkips(After(Boot(n, cpus), evs[..|evs| - 1]), evs[|evs| - 1], c);
    }
  }
}
