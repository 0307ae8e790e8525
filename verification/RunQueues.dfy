/** The per-CPU ring buffer of src/cpu/scheduler_smp.rs, as a first-in first-out queue. */
module RingBuffers {
  import opened Common

  const CAPACITY: nat := 64

  datatype Task = Task(id: nat, priority: byte)

  datatype Ring = Ring(tasks: seq<Option<Task>>, head: nat, tail: nat, count: nat)

  /** The `i`-th slot from `h`, going round. */
  function Slot(h: nat, i: nat): nat { if h + i < CAPACITY then h + i else h + i - CAPACITY }

  predicate SlotIs(tasks: seq<Option<Task>>, h: nat, i: nat, c: seq<Task>)
    requires |tasks| == CAPACITY && h < CAPACITY && i < CAPACITY
  {
    tasks[Slot(h, i)] == if i < |c| then Some(c[i]) else None
  }

  /** The ring holds the tasks `c`, oldest first, and nothing in its other slots. */
  ghost predicate RingIs(r: Ring, c: seq<Task>) {
    && |r.tasks| == CAPACITY && r.head < CAPACITY && r.count == |c| <= CAPACITY
    && r.tail == (r.head + r.count) % CAPACITY
    && (forall i: nat :: i < CAPACITY ==> SlotIs(r.tasks, r.head, i, c))
  }

  lemma TailSlot(r: Ring, c: seq<Task>)
    requires RingIs(r, c)
    ensures r.tail < CAPACITY && (r.count < CAPACITY ==> r.tail == Slot(r.head, r.count))
  {
  }

  /** The tasks found in slots `i` up to `n`, counted from `h` going round; empty slots are passed over. */
  function Found(tasks: seq<Option<Task>>, h: nat, i: nat, n: nat): seq<Task>
    requires |tasks| == CAPACITY && h < CAPACITY && n <= CAPACITY
    decreases if i <= n then n - i else 0
  {
    if i >= n then []
    else (if tasks[Slot(h, i)].Some? then [tasks[Slot(h, i)].value] else []) + Found(tasks, h, i + 1, n)
  }

  /** What the ring holds: its `count` slots, read from the head on. */
  function Held(r: Ring): seq<Task> { if Readable(r) then Found(r.tasks, r.head, 0, r.count) else [] }

  predicate Readable(r: Ring) { |r.tasks| == CAPACITY && r.head < CAPACITY && r.count <= CAPACITY }

  /** Slot `j` holds task `j` of `c` up to `m` and nothing from there on. */
  predicate Filled(tasks: seq<Option<Task>>, h: nat, j: nat, m: nat, c: seq<Task>)
    requires |tasks| == CAPACITY && h < CAPACITY && j < CAPACITY && m <= |c|
  {
    tasks[Slot(h, j)] == if j < m then Some(c[j]) else None
  }

  lemma {:induction false} FoundIs(tasks: seq<Option<Task>>, h: nat, i: nat, m: nat, n: nat, c: seq<Task>)
    requires |tasks| == CAPACITY && h < CAPACITY && i <= n <= CAPACITY && m <= n && m <= |c|
    requires forall j: nat :: i <= j < n ==> Filled(tasks, h, j, m, c)
    ensures Found(tasks, h, i, n) == if i <= m then c[i..m] else []
    decreases n - i
  {
    if i < n {
      assert Filled(tasks, h, i, m, c);
      FoundIs(tasks, h, i + 1, m, n, c);
      if i < m { assert c[i..m] == [c[i]] + c[i + 1..m]; }
    }
  }

  /** A sound ring holds exactly the tasks it stands for. */
  lemma HeldIs(r: Ring, c: seq<Task>)
    requires RingIs(r, c)
    ensures Readable(r) && Held(r) == c
  {
    forall j: nat | j < r.count ensures Filled(r.tasks, r.head, j, r.count, c) { assert SlotIs(r.tasks, r.head, j, c); }
    FoundIs(r.tasks, r.head, 0, r.count, r.count, c);
  }

  /** With the tail slot written but not counted, the ring still holds what it held. */
  lemma HeldAhead(r: Ring, c: seq<Task>, t: Task, tail: nat)
    requires RingIs(r, c) && r.count < CAPACITY && r.tail < CAPACITY
    ensures Held(Ring(r.tasks[r.tail := Some(t)], r.head, tail, r.count)) == c
  {
    TailSlot(r, c);
    var tasks := r.tasks[r.tail := Some(t)];
    forall j: nat | j < r.count ensures Filled(tasks, r.head, j, r.count, c) { assert SlotIs(r.tasks, r.head, j, c); }
    FoundIs(tasks, r.head, 0, r.count, r.count, c);
  }

  /** With the head slot cleared but still counted, and with the head advanced as well, the ring
      holds the rest. */
  lemma HeldBehind(r: Ring, c: seq<Task>)
    requires RingIs(r, c) && r.count > 0
    ensures r.tasks[r.head] == Some(c[0])
    ensures Held(Ring(r.tasks[r.head := None], r.head, r.tail, r.count)) == c[1..]
    ensures Held(Ring(r.tasks[r.head := None], (r.head + 1) % CAPACITY, r.tail, r.count)) == c[1..]
  {
    var tasks, h' := r.tasks[r.head := None], (r.head + 1) % CAPACITY;
    assert SlotIs(r.tasks, r.head, 0, c);
    forall j: nat | 1 <= j < r.count ensures Filled(tasks, r.head, j, r.count, c) { assert SlotIs(r.tasks, r.head, j, c); }
    FoundIs(tasks, r.head, 1, r.count, r.count, c);
    assert Slot(r.head, 0) == r.head;
    HeldShifted(r, c);
  }

  lemma HeldShifted(r: Ring, c: seq<Task>)
    requires RingIs(r, c) && r.count > 0
    ensures Held(Ring(r.tasks[r.head := None], (r.head + 1) % CAPACITY, r.tail, r.count)) == c[1..]
  {
    var tasks, h' := r.tasks[r.head := None], (r.head + 1) % CAPACITY;
    var d, m := c[1..], r.count - 1;
    forall j: nat | j < r.count ensures Filled(tasks, h', j, m, d) { ShiftedSlot(r, c, j); }
    FoundIs(tasks, h', 0, m, r.count, d);
  }

  lemma ShiftedSlot(r: Ring, c: seq<Task>, j: nat)
    requires RingIs(r, c) && r.count > 0 && j < r.count
    ensures Filled(r.tasks[r.head := None], (r.head + 1) % CAPACITY, j, r.count - 1, c[1..])
  {
    var h' := (r.head + 1) % CAPACITY;
    if j + 1 < CAPACITY {
      assert SlotIs(r.tasks, r.head, j + 1, c);
      assert Slot(h', j) == Slot(r.head, j + 1) != r.head;
    } else {
      assert Slot(h', j) == r.head;
    }
  }

  lemma EmptyRing(h: nat)
    requires h < CAPACITY
    ensures RingIs(Ring(seq(CAPACITY, _ => None), h, h, 0), [])
  {
  }

  /** Writing the tail slot, advancing the tail and counting appends. */
  lemma EnqueueRing(r: Ring, c: seq<Task>, t: Task)
    requires RingIs(r, c) && r.count < CAPACITY
    ensures r.tail < CAPACITY
    ensures RingIs(Ring(r.tasks[r.tail := Some(t)], r.head, (r.tail + 1) % CAPACITY, r.count + 1), c + [t])
  {
    TailSlot(r, c);
    var tasks := r.tasks[r.tail := Some(t)];
    forall i: nat | i < CAPACITY ensures SlotIs(tasks, r.head, i, c + [t]) {
      assert SlotIs(r.tasks, r.head, i, c);
    }
  }

  /** Reading and clearing the head slot, advancing the head and counting removes the oldest. */
  lemma DequeueRing(r: Ring, c: seq<Task>)
    requires RingIs(r, c) && r.count > 0
    ensures r.tasks[r.head] == Some(c[0])
    ensures RingIs(Ring(r.tasks[r.head := None], (r.head + 1) % CAPACITY, r.tail, r.count - 1), c[1..])
  {
    hide SlotIs, Slot;
    var h' := (r.head + 1) % CAPACITY;
    DequeuedTail(r.head, r.count);
    HeadRing(r, c);
    var tasks := r.tasks[r.head := None];
    forall i: nat | i < CAPACITY ensures SlotIs(tasks, h', i, c[1..]) {
      if i < CAPACITY - 1 { assert SlotIs(r.tasks, r.head, i + 1, c); }
      DequeuedSlot(r.tasks, r.head, h', i, c);
    }
  }

  lemma DequeuedSlot(tasks: seq<Option<Task>>, h: nat, h': nat, i: nat, c: seq<Task>)
    requires |tasks| == CAPACITY && h < CAPACITY && i < CAPACITY && h' == Slot(h, 1) && 0 < |c| <= CAPACITY
    requires i < CAPACITY - 1 ==> SlotIs(tasks, h, i + 1, c)
    ensures h' < CAPACITY && SlotIs(tasks[h := None], h', i, c[1..])
  {
  }

  lemma DequeuedTail(h: nat, n: nat)
    requires h < CAPACITY && 0 < n <= CAPACITY
    ensures Slot(h, 1) == (h + 1) % CAPACITY && ((h + 1) % CAPACITY + (n - 1)) % CAPACITY == (h + n) % CAPACITY
  {
    if h + 1 == CAPACITY { assert h + n == (n - 1) + CAPACITY; }
  }

  lemma HeadRing(r: Ring, c: seq<Task>)
    requires RingIs(r, c)
    ensures r.tasks[r.head] == if c == [] then None else Some(c[0])
  {
    assert SlotIs(r.tasks, r.head, 0, c);
  }

  class PerCpuRunQueue {
    const tasks: array<Option<Task>>
    var head: nat
    var tail: nat
    var count: nat

    /** The queued tasks, oldest first. */
    ghost var contents: seq<Task>

    ghost predicate Valid()
      reads this, tasks
    {
      RingIs(Ring(tasks[..], head, tail, count), contents)
    }

    constructor ()
      ensures Valid() && fresh(tasks) && contents == []
    {
      tasks := new Option<Task>[CAPACITY](_ => None);
      head, tail, count := 0, 0, 0;
      contents := [];
      new;
      assert tasks[..] == seq(CAPACITY, _ => None);
      EmptyRing(0);
    }

    /** Refused exactly when 64 tasks are queued. */
    method Enqueue(t: Task) returns (ok: bool)
      requires Valid()
      modifies this, tasks
      ensures Valid()
      ensures ok <==> old(|contents|) < 64
      ensures contents == if ok then old(contents) + [t] else old(contents)
    {
      hide SlotIs;
      if count >= CAPACITY { return false; }
      EnqueueRing(Ring(tasks[..], head, tail, count), contents, t);
      ghost var before := tasks[..];
      tasks[tail] := Some(t);
      assert tasks[..] == before[tail := Some(t)];
      tail := (tail + 1) % CAPACITY;
      count := count + 1;
      contents := contents + [t];
      return true;
    }

    /** The oldest task, if any. */
    method Dequeue() returns (r: Option<Task>)
      requires Valid()
      modifies this, tasks
      ensures Valid()
      ensures if old(contents) == [] then r == None && contents == [] else r == Some(old(contents)[0]) && contents == old(contents)[1..]
    {
      hide SlotIs;
      if count == 0 { return None; }
      DequeueRing(Ring(tasks[..], head, tail, count), contents);
      ghost var before := tasks[..];
      r := tasks[head];
      tasks[head] := None;
      assert tasks[..] == before[head := None];
      head := (head + 1) % CAPACITY;
      count := count - 1;
      contents := contents[1..];
    }

    /** The oldest task without removing it; nothing if the queue is empty. */
    method Peek() returns (r: Option<Task>)
      requires Valid()
      ensures r == if contents == [] then None else Some(contents[0])
    {
      HeadRing(Ring(tasks[..], head, tail, count), contents);
      return tasks[head];
    }
  }

  class MultiCpuScheduler {
    const queues: seq<PerCpuRunQueue>

    ghost predicate Valid()
      reads this, queues, set q <- queues :: q.tasks
    {
      && (forall i :: 0 <= i < |queues| ==> queues[i].Valid())
      && (forall i, j :: 0 <= i < j < |queues| ==> queues[i] != queues[j] && queues[i].tasks != queues[j].tasks)
    }

    constructor (n: nat)
      ensures Valid() && |queues| == n && forall i :: 0 <= i < n ==> queues[i].contents == []
    {
      hide RingIs;
      var qs: seq<PerCpuRunQueue> := [];
      while |qs| < n
        invariant |qs| <= n
        invariant forall i :: 0 <= i < |qs| ==> fresh(qs[i]) && fresh(qs[i].tasks) && qs[i].Valid() && qs[i].contents == []
        invariant forall i, j :: 0 <= i < j < |qs| ==> qs[i] != qs[j] && qs[i].tasks != qs[j].tasks
      {
        var q := new PerCpuRunQueue();
        qs := qs + [q];
      }
      queues := qs;
    }

    /** load_balance: takes the oldest task of the first non-empty queue that is not `idle`'s own;
        nothing if all of those are empty. No other queue changes. */
    method LoadBalance(idle: nat) returns (r: Option<Task>)
      requires Valid()
      modifies queues, set q <- queues :: q.tasks
      ensures Valid()
      ensures r.None? ==> forall j :: 0 <= j < |queues| ==>
        queues[j].contents == old(queues[j].contents) && (j != idle ==> queues[j].contents == [])
      ensures r.Some? ==> exists i ::
        && 0 <= i < |queues| && i != idle && old(queues[i].contents) != []
        && r.value == old(queues[i].contents)[0] && queues[i].contents == old(queues[i].contents)[1..]
        && (forall j :: 0 <= j < i && j != idle ==> old(queues[j].contents) == [])
        && (forall j :: 0 <= j < |queues| && j != i ==> queues[j].contents == old(queues[j].contents))
    {
      hide RingIs;
      var i := 0;
      while i < |queues|
        invariant 0 <= i <= |queues| && Valid()
        invariant forall j :: 0 <= j < |queues| ==> queues[j].contents == old(queues[j].contents)
        invariant forall j :: 0 <= j < i && j != idle ==> queues[j].contents == []
      {
        if i != idle {
          r := queues[i].Dequeue();
          if r.Some? { return; }
        }
        i := i + 1;
      }
      r := None;
    }
  }
}
