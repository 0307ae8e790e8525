/**
 Fork, exit and wait (src/syscall/mod.rs, src/process/mod.rs) as a state machine: who becomes a
 zombie, who reaps it, and with which status.
 */
module ExitWaitSpec {
  import opened Common
  import opened Lists

  datatype Process = Process(threads: seq<nat>, parent: Option<nat>, children: seq<nat>)

  datatype Thread = Thread(pid: nat, blocked: bool)

  datatype Zombie = Zombie(parent: nat, child: nat, status: nat)

  datatype Waiter = Waiter(parent: nat, tid: nat, target: Option<nat>)

  /** A thread's exit, and a zombie handed to the thread `tid` of process `pid`. */
  datatype Exited = Exited(tid: nat, pid: nat, status: nat)

  datatype Reap = Reap(zombie: Zombie, tid: nat, pid: nat)

  /** The last four fields are history: processes that ended and had a parent, thread exits, reaped
      zombies, and who forked whom. */
  datatype State = State(
    processes: map<nat, Process>, nextPid: nat, threads: map<nat, Thread>, nextTid: nat,
    zombies: seq<Zombie>, waiters: seq<Waiter>,
    ended: seq<Zombie>, exits: seq<Exited>, reaps: seq<Reap>, forks: map<nat, nat>)

  /** Launch: a first process with one thread. Fork: `frame` and `stack` say whether the two frame
      allocations succeed. Wait: one iteration of the loop in sys_wait (`pid` 0 means any child). */
  datatype Op =
    | Launch
    | Fork(tid: nat, frame: bool, stack: bool)
    | Clone(tid: nat)
    | Exit(tid: nat, status: nat)
    | Wait(tid: nat, pid: nat)

  // ---------------------------------------------------------------- the operations

  predicate Matches(z: Zombie, parent: nat, pid: nat) { z.parent == parent && (pid == 0 || z.child == pid) }

  predicate Wakes(w: Waiter, parent: nat, child: nat) { w.parent == parent && (w.target == None || w.target == Some(child)) }

  /** The first zombie from `i` on that `parent` may take. */
  function FindZombie(zs: seq<Zombie>, parent: nat, pid: nat, i: nat): (r: Option<nat>)
    requires i <= |zs|
    ensures r.Some? ==> i <= r.value < |zs| && Matches(zs[r.value], parent, pid)
    ensures r.Some? ==> forall j :: i <= j < r.value ==> !Matches(zs[j], parent, pid)
    ensures r.None? ==> forall j :: i <= j < |zs| ==> !Matches(zs[j], parent, pid)
    decreases |zs| - i
  {
    if i == |zs| then None else if Matches(zs[i], parent, pid) then Some(i) else FindZombie(zs, parent, pid, i + 1)
  }

  function FindWaiter(ws: seq<Waiter>, parent: nat, child: nat, i: nat): (r: Option<nat>)
    requires i <= |ws|
    ensures r.Some? ==> i <= r.value < |ws| && Wakes(ws[r.value], parent, child)
    ensures r.Some? ==> forall j :: i <= j < r.value ==> !Wakes(ws[j], parent, child)
    ensures r.None? ==> forall j :: i <= j < |ws| ==> !Wakes(ws[j], parent, child)
    decreases |ws| - i
  {
    if i == |ws| then None else if Wakes(ws[i], parent, child) then Some(i) else FindWaiter(ws, parent, child, i + 1)
  }

  function RemoveAt<T>(s: seq<T>, i: nat): seq<T>
    requires i < |s|
  {
    s[..i] + s[i + 1..]
  }

  /** waiters.retain(|w| w.tid != tid) */
  function DropWaiter(ws: seq<Waiter>, t: nat): seq<Waiter> {
    if ws == [] then [] else if ws[0].tid == t then DropWaiter(ws[1..], t) else [ws[0]] + DropWaiter(ws[1..], t)
  }

  /** create_thread in a process of the table. */
  function NewThread(s: State, pid: nat): State {
    var s1 := s.(threads := s.threads[s.nextTid := Thread(pid, false)], nextTid := s.nextTid + 1);
    if pid in s.processes then
      var p := s.processes[pid];
      s1.(processes := s.processes[pid := p.(threads := p.threads + [s.nextTid])])
    else s1
  }

  function LaunchStep(s: State): State {
    var pid := s.nextPid;
    NewThread(s.(processes := s.processes[pid := Process([], None, [])], nextPid := pid + 1), pid)
  }

  /** The child process with its links, before it has a thread. */
  function ForkChild(s: State, parent: nat): State
    requires parent in s.processes
  {
    var child := s.nextPid;
    var p := s.processes[parent];
    s.(processes := s.processes[child := Process([], Some(parent), [])][parent := p.(children := p.children + [child])],
       nextPid := child + 1, forks := s.forks[child := parent])
  }

  function ForkStep(s: State, t: nat, frame: bool, stack: bool): State {
    if t !in s.threads || s.threads[t].blocked || s.threads[t].pid !in s.processes || !frame then s
    else
      var s1 := ForkChild(s, s.threads[t].pid);
      if !stack then s1 else NewThread(s1, s.nextPid)
  }

  function CloneStep(s: State, t: nat): State {
    if t !in s.threads || s.threads[t].blocked then s else NewThread(s, s.threads[t].pid)
  }

  /** unblock_thread */
  function Wake(threads: map<nat, Thread>, t: nat): map<nat, Thread> {
    if t in threads && threads[t].blocked then threads[t := threads[t].(blocked := false)] else threads
  }

  /** record_child_exit */
  function RecordExit(s: State, parent: nat, child: nat, status: nat): State {
    var s1 :=
      if parent in s.processes then
        var p := s.processes[parent];
        s.(processes := s.processes[parent := p.(children := Without(p.children, child))])
      else s;
    var s2 := s1.(zombies := s.zombies + [Zombie(parent, child, status)], ended := s.ended + [Zombie(parent, child, status)]);
    var w := FindWaiter(s.waiters, parent, child, 0);
    if w.None? then s2
    else s2.(waiters := RemoveAt(s.waiters, w.value), threads := Wake(s.threads, s.waiters[w.value].tid))
  }

  /** finalize_thread */
  function ExitStep(s: State, t: nat, status: nat): State {
    if t !in s.threads || s.threads[t].blocked then s
    else
      var pid := s.threads[t].pid;
      var s1 := s.(threads := s.threads - {t}, exits := s.exits + [Exited(t, pid, status)]);
      if pid !in s.processes then s1
      else
        var p := s.processes[pid];
        var rest := Without(p.threads, t);
        if rest != [] then s1.(processes := s.processes[pid := p.(threads := rest)])
        else
          var s2 := s1.(processes := s.processes - {pid});
          if p.parent.None? then s2 else RecordExit(s2, p.parent.value, pid, status)
  }

  /** take_zombie, or register_waiter and block. */
  function WaitStep(s: State, t: nat, pid: nat): State {
    if t !in s.threads || s.threads[t].blocked then s
    else
      var me := s.threads[t].pid;
      var z := FindZombie(s.zombies, me, pid, 0);
      if z.Some? then
        s.(zombies := RemoveAt(s.zombies, z.value), reaps := s.reaps + [Reap(s.zombies[z.value], t, me)])
      else
        s.(waiters := DropWaiter(s.waiters, t) + [Waiter(me, t, if pid == 0 then None else Some(pid))],
           threads := s.threads[t := Thread(me, true)])
  }

  function Step(s: State, op: Op): State {
    match op
    case Launch => LaunchStep(s)
    case Fork(t, frame, stack) => ForkStep(s, t, frame, stack)
    case Clone(t) => CloneStep(s, t)
    case Exit(t, status) => ExitStep(s, t, status)
    case Wait(t, pid) => WaitStep(s, t, pid)
  }

  // ---------------------------------------------------------------- the invariant

  /** A thread belongs to a process of the table that lists it. */
  predicate ThreadOk(s: State, t: nat)
    requires t in s.threads
  {
    t < s.nextTid && s.threads[t].pid in s.processes && t in s.processes[s.threads[t].pid].threads
  }

  predicate ProcessOk(s: State, p: nat)
    requires p in s.processes
  {
    && 1 <= p < s.nextPid && NoDup(s.processes[p].threads)
    && (forall t <- s.processes[p].threads :: t in s.threads && s.threads[t].pid == p)
    && (s.processes[p].parent.Some? ==> p in s.forks && s.forks[p] == s.processes[p].parent.value)
  }

  ghost predicate TablesOk(s: State) {
    && (forall t <- s.threads :: ThreadOk(s, t))
    && (forall p <- s.processes :: ProcessOk(s, p))
    && (forall p <- s.forks :: p < s.nextPid)
  }

  predicate WaiterOk(threads: map<nat, Thread>, w: Waiter) {
    w.tid in threads && threads[w.tid].blocked && threads[w.tid].pid == w.parent
  }

  ghost predicate Registered(ws: seq<Waiter>, t: nat) { exists i :: 0 <= i < |ws| && ws[i].tid == t }

  /** Waiter entries and blocked threads correspond one to one. */
  ghost predicate WaitersOk(threads: map<nat, Thread>, ws: seq<Waiter>) {
    && (forall i :: 0 <= i < |ws| ==> WaiterOk(threads, ws[i]))
    && (forall i, j :: 0 <= i < j < |ws| ==> ws[i].tid != ws[j].tid)
    && (forall t <- threads :: threads[t].blocked ==> Registered(ws, t))
  }

  /** The status of the last thread of `pid` to exit. */
  function LastExit(exits: seq<Exited>, pid: nat): Option<nat> {
    if exits == [] then None
    else if exits[|exits| - 1].pid == pid then Some(exits[|exits| - 1].status)
    else LastExit(exits[..|exits| - 1], pid)
  }

  predicate EndedOk(s: State, z: Zombie) {
    && 1 <= z.child < s.nextPid && z.child !in s.processes && LastExit(s.exits, z.child) == Some(z.status)
    && z.child in s.forks && s.forks[z.child] == z.parent
  }

  function Zombies(reaps: seq<Reap>): (zs: seq<Zombie>)
    ensures |zs| == |reaps| && forall i :: 0 <= i < |zs| ==> zs[i] == reaps[i].zombie
  {
    seq(|reaps|, i requires 0 <= i < |reaps| => reaps[i].zombie)
  }

  /** Every process that ended is an unreaped zombie or was reaped. */
  ghost predicate LedgerOk(s: State) {
    && multiset(s.ended) == multiset(s.zombies) + multiset(Zombies(s.reaps))
    && (forall i :: 0 <= i < |s.ended| ==> EndedOk(s, s.ended[i]))
    && (forall i, j :: 0 <= i < j < |s.ended| ==> s.ended[i].child != s.ended[j].child)
    && (forall i :: 0 <= i < |s.reaps| ==> s.reaps[i].pid == s.reaps[i].zombie.parent)
    && (forall i :: 0 <= i < |s.exits| ==> s.exits[i].pid < s.nextPid)
  }

  ghost predicate HasEnded(ended: seq<Zombie>, p: nat) { exists i :: 0 <= i < |ended| && ended[i].child == p }

  /** A forked process is in the table, with its parent, or its end is on record. */
  ghost predicate ChildOk(s: State, p: nat) {
    if p in s.processes then s.processes[p].parent.Some? else HasEnded(s.ended, p)
  }

  ghost predicate NoneLost(s: State) { forall p <- s.forks :: ChildOk(s, p) }

  /** Tables, waiters and records agree with one another. */
  ghost predicate Core(s: State) { s.nextPid >= 1 && TablesOk(s) && WaitersOk(s.threads, s.waiters) && LedgerOk(s) }

  ghost predicate Inv(s: State) { Core(s) && NoneLost(s) }

  /** No forked process is lost while the table only gains fresh ones. */
  lemma LostFrame(s: State, s': State)
    requires NoneLost(s) && TablesOk(s) && s.ended <= s'.ended
    requires forall p <- s'.forks :: p in s.forks || (p in s'.processes && s'.processes[p].parent.Some?)
    requires forall p <- s'.processes :: p in s.processes || p >= s.nextPid
    requires forall p <- s.processes ::
      if p in s'.processes then s'.processes[p].parent == s.processes[p].parent else HasEnded(s'.ended, p) || p !in s.forks
    ensures NoneLost(s')
  {
    hide ThreadOk, ProcessOk;
    forall p <- s'.forks ensures ChildOk(s', p) {
      if p in s.forks {
        assert ChildOk(s, p);
        if p !in s.processes { EndedStays(s.ended, s'.ended, p); }
      }
    }
  }

  lemma EndedStays(a: seq<Zombie>, b: seq<Zombie>, p: nat)
    requires HasEnded(a, p) && a <= b
    ensures HasEnded(b, p)
  {
    var i :| 0 <= i < |a| && a[i].child == p;
    assert b[i].child == p;
  }

  // ---------------------------------------------------------------- new threads and processes

  lemma NewThreadTables(s: State, pid: nat)
    requires TablesOk(s) && pid in s.processes
    ensures TablesOk(NewThread(s, pid))
  {
    var s' := NewThread(s, pid);
    assert ProcessOk(s, pid);
    assert s'.processes[pid].threads[|s.processes[pid].threads|] == s.nextTid;
    forall t <- s'.threads ensures ThreadOk(s', t) {
      assert t != s.nextTid ==> ThreadOk(s, t);
    }
    OtherThreads(s, pid);
    AppendNoDup(s.processes[pid].threads, s.nextTid);
    forall p <- s'.processes ensures ProcessOk(s', p) {
      assert ProcessOk(s, p);
      if p != pid { OtherThreads(s, p); }
    }
  }

  lemma OtherThreads(s: State, p: nat)
    requires TablesOk(s) && p in s.processes
    ensures forall t <- s.processes[p].threads :: t in s.threads && t < s.nextTid
  {
    assert ProcessOk(s, p);
    forall t <- s.processes[p].threads ensures t in s.threads && t < s.nextTid { assert ThreadOk(s, t); }
  }

  lemma FreshThread(s: State)
    requires TablesOk(s)
    ensures s.nextTid !in s.threads
  {
    assert s.nextTid in s.threads ==> ThreadOk(s, s.nextTid);
  }

  /** A new thread is not waiting. */
  lemma WaitersAdd(threads: map<nat, Thread>, ws: seq<Waiter>, t: nat, pid: nat)
    requires WaitersOk(threads, ws) && t !in threads
    ensures WaitersOk(threads[t := Thread(pid, false)], ws)
  {
    hide Registered;
    forall i | 0 <= i < |ws| ensures WaiterOk(threads[t := Thread(pid, false)], ws[i]) { assert WaiterOk(threads, ws[i]); }
  }

  /** The ledger does not care about new processes and threads. */
  lemma LedgerFrame(s: State, s': State)
    requires LedgerOk(s) && s'.nextPid >= s.nextPid
    requires s'.ended == s.ended && s'.zombies == s.zombies && s'.reaps == s.reaps && s'.exits == s.exits
    requires forall p <- s'.processes :: p in s.processes || p >= s.nextPid
    requires forall p <- s.forks :: p in s'.forks && s'.forks[p] == s.forks[p]
    ensures LedgerOk(s')
  {
    hide LastExit, Zombies;
    forall i | 0 <= i < |s'.ended| ensures EndedOk(s', s'.ended[i]) { assert EndedOk(s, s.ended[i]); }
  }

  lemma NewThreadOk(s: State, pid: nat)
    requires Core(s) && pid in s.processes
    ensures Core(NewThread(s, pid))
  {
    hide TablesOk, WaitersOk, LedgerOk;
    NewThreadTables(s, pid);
    FreshThread(s);
    WaitersAdd(s.threads, s.waiters, s.nextTid, pid);
    LedgerFrame(s, NewThread(s, pid));
  }

  lemma NewProcess(s: State, parent: Option<nat>)
    requires Core(s)
    ensures Core(s.(processes := s.processes[s.nextPid := Process([], parent, [])], nextPid := s.nextPid + 1,
                   forks := if parent.Some? then s.forks[s.nextPid := parent.value] else s.forks))
  {
    hide WaitersOk, LedgerOk, ProcessOk, ThreadOk;
    var s' := s.(processes := s.processes[s.nextPid := Process([], parent, [])], nextPid := s.nextPid + 1,
                 forks := if parent.Some? then s.forks[s.nextPid := parent.value] else s.forks);
    FreshProcess(s);
    forall p <- s'.processes ensures ProcessOk(s', p) {
      if p in s.processes { assert ProcessOk(s, p); }
      NewProcessTable(s, parent, p);
    }
    forall t <- s'.threads ensures ThreadOk(s', t) {
      assert ThreadOk(s, t);
      NewProcessThread(s, s', t);
    }
    LedgerFrame(s, s');
  }

  lemma NewProcessTable(s: State, parent: Option<nat>, p: nat)
    requires s.nextPid >= 1 && (p == s.nextPid || (p in s.processes && ProcessOk(s, p)))
    ensures ProcessOk(s.(processes := s.processes[s.nextPid := Process([], parent, [])], nextPid := s.nextPid + 1,
                         forks := if parent.Some? then s.forks[s.nextPid := parent.value] else s.forks), p)
  {
  }

  lemma NewProcessThread(s: State, s': State, t: nat)
    requires t in s.threads && ThreadOk(s, t) && s'.threads == s.threads && s'.nextTid == s.nextTid
    requires forall p <- s.processes :: p in s'.processes && s'.processes[p] == s.processes[p]
    ensures ThreadOk(s', t)
  {
  }

  lemma FreshProcess(s: State)
    requires TablesOk(s)
    ensures s.nextPid !in s.processes && s.nextPid !in s.forks
  {
    assert s.nextPid in s.processes ==> ProcessOk(s, s.nextPid);
  }

  /** Only the list of children differs. */
  lemma ChildrenOnly(s: State, pid: nat, children: seq<nat>)
    requires Core(s) && pid in s.processes
    ensures Core(s.(processes := s.processes[pid := s.processes[pid].(children := children)]))
  {
    hide WaitersOk, LedgerOk;
    var s' := s.(processes := s.processes[pid := s.processes[pid].(children := children)]);
    forall p <- s'.processes ensures ProcessOk(s', p) { assert ProcessOk(s, p) && ProcessOk(s, pid); }
    forall t <- s'.threads ensures ThreadOk(s', t) { assert ThreadOk(s, t); }
    LedgerFrame(s, s');
  }

  lemma LaunchOk(s: State)
    requires Core(s)
    ensures Core(LaunchStep(s))
  {
    hide TablesOk, WaitersOk, LedgerOk, NewThread;
    NewProcess(s, None);
    NewThreadOk(s.(processes := s.processes[s.nextPid := Process([], None, [])], nextPid := s.nextPid + 1), s.nextPid);
  }

  lemma ForkOk(s: State, t: nat, frame: bool, stack: bool)
    requires Core(s)
    ensures Core(ForkStep(s, t, frame, stack))
  {
    hide TablesOk, WaitersOk, LedgerOk, NewThread;
    if t in s.threads && s.threads[t].pid in s.processes {
      var parent := s.threads[t].pid;
      ForkedTables(s, parent);
      NewThreadOk(ForkChild(s, parent), s.nextPid);
    }
  }

  lemma ForkedTables(s: State, parent: nat)
    requires Core(s) && parent in s.processes
    ensures Core(ForkChild(s, parent))
  {
    hide TablesOk, WaitersOk, LedgerOk;
    NewProcess(s, Some(parent));
    var s1 := s.(processes := s.processes[s.nextPid := Process([], Some(parent), [])], nextPid := s.nextPid + 1,
                 forks := s.forks[s.nextPid := parent]);
    PidBelow(s, parent);
    ChildrenOnly(s1, parent, s.processes[parent].children + [s.nextPid]);
    assert ForkChild(s, parent) == s1.(processes := s1.processes[parent := s1.processes[parent].(children := s.processes[parent].children + [s.nextPid])]);
  }

  lemma PidBelow(s: State, p: nat)
    requires TablesOk(s) && p in s.processes
    ensures 1 <= p < s.nextPid
  {
    assert ProcessOk(s, p);
  }

  lemma CloneOk(s: State, t: nat)
    requires Core(s)
    ensures Core(CloneStep(s, t))
  {
    hide WaitersOk, LedgerOk, NewThread;
    if t in s.threads {
      assert ThreadOk(s, t);
      NewThreadOk(s, s.threads[t].pid);
    }
  }

  // ---------------------------------------------------------------- exits

  /** The tables without thread `t`, and without its process if it was the last. */
  ghost predicate Exits(s: State, s': State, t: nat)
    requires t in s.threads && s.threads[t].pid in s.processes
  {
    && s'.threads == s.threads - {t} && s'.nextPid == s.nextPid && s'.nextTid == s.nextTid && s'.forks == s.forks
    && var pid := s.threads[t].pid; var rest := Without(s.processes[pid].threads, t);
       s'.processes == if rest == [] then s.processes - {pid} else s.processes[pid := s.processes[pid].(threads := rest)]
  }

  lemma ExitTables(s: State, s': State, t: nat)
    requires TablesOk(s) && t in s.threads && s.threads[t].pid in s.processes && Exits(s, s', t)
    ensures TablesOk(s')
  {
    hide Without, ThreadOk, ProcessOk;
    forall x <- s'.threads ensures ThreadOk(s', x) { ExitThread(s, s', t, x); }
    forall p <- s'.processes ensures ProcessOk(s', p) { ExitProcess(s, s', t, p); }
  }

  lemma ExitThread(s: State, s': State, t: nat, x: nat)
    requires TablesOk(s) && t in s.threads && s.threads[t].pid in s.processes && Exits(s, s', t) && x in s'.threads
    ensures ThreadOk(s', x)
  {
    hide Without, ProcessOk;
    WithoutOk(s.processes[s.threads[t].pid].threads, t);
    assert ThreadOk(s, x);
  }

  lemma ExitProcess(s: State, s': State, t: nat, p: nat)
    requires TablesOk(s) && t in s.threads && s.threads[t].pid in s.processes && Exits(s, s', t) && p in s'.processes
    ensures ProcessOk(s', p)
  {
    hide Without, ThreadOk, NoDup;
    WithoutOk(s.processes[s.threads[t].pid].threads, t);
    assert ProcessOk(s, p);
  }

  lemma WaitersExit(threads: map<nat, Thread>, ws: seq<Waiter>, t: nat)
    requires WaitersOk(threads, ws) && t in threads && !threads[t].blocked
    ensures WaitersOk(threads - {t}, ws)
  {
    hide Registered;
    forall i | 0 <= i < |ws| ensures WaiterOk(threads - {t}, ws[i]) { assert WaiterOk(threads, ws[i]); }
  }

  /** An exit in a process that has not ended says nothing about those that have. */
  lemma LedgerExit(s: State, s': State, t: nat, status: nat)
    requires LedgerOk(s) && t in s.threads && s.threads[t].pid in s.processes && s.threads[t].pid < s.nextPid
    requires s'.ended == s.ended && s'.zombies == s.zombies && s'.reaps == s.reaps && s'.forks == s.forks && s'.nextPid == s.nextPid
    requires s'.exits == s.exits + [Exited(t, s.threads[t].pid, status)]
    requires forall p <- s'.processes :: p in s.processes
    ensures LedgerOk(s')
  {
    hide Zombies;
    assert s'.exits[..|s.exits|] == s.exits;
    forall i | 0 <= i < |s'.ended| ensures EndedOk(s', s'.ended[i]) { assert EndedOk(s, s.ended[i]); }
  }

  /** Waking the owner of a removed entry. */
  lemma WakeOk(threads: map<nat, Thread>, ws: seq<Waiter>, i: nat)
    requires WaitersOk(threads, ws) && i < |ws|
    ensures WaitersOk(Wake(threads, ws[i].tid), RemoveAt(ws, i))
  {
    hide WaiterOk, Registered, RemoveAt, Wake;
    var threads', ws' := Wake(threads, ws[i].tid), RemoveAt(ws, i);
    RemovedIs(ws, i);
    assert WaiterOk(threads, ws[i]);
    forall j | 0 <= j < |ws'| ensures WaiterOk(threads', ws'[j]) {
      var k := if j < i then j else j + 1;
      assert WaiterOk(threads, ws[k]) && ws[k].tid != ws[i].tid;
      WakeOther(threads, ws[i], ws[k]);
    }
    forall t | t in threads' && threads'[t].blocked ensures Registered(ws', t) {
      WakeThis(threads, ws[i], t);
      StillRegistered(ws, i, t);
    }
  }

  lemma RemovedIs<T>(s: seq<T>, i: nat)
    requires i < |s|
    ensures |RemoveAt(s, i)| == |s| - 1
    ensures forall j :: 0 <= j < |s| - 1 ==> RemoveAt(s, i)[j] == s[if j < i then j else j + 1]
  {
  }

  lemma WakeOther(threads: map<nat, Thread>, woken: Waiter, w: Waiter)
    requires WaiterOk(threads, w) && w.tid != woken.tid
    ensures WaiterOk(Wake(threads, woken.tid), w)
  {
  }

  lemma WakeThis(threads: map<nat, Thread>, woken: Waiter, t: nat)
    requires WaiterOk(threads, woken) && t in Wake(threads, woken.tid) && Wake(threads, woken.tid)[t].blocked
    ensures t != woken.tid && t in threads && threads[t].blocked
  {
  }

  lemma StillRegistered(ws: seq<Waiter>, i: nat, t: nat)
    requires i < |ws| && Registered(ws, t) && t != ws[i].tid
    ensures Registered(RemoveAt(ws, i), t)
  {
    var k :| 0 <= k < |ws| && ws[k].tid == t;
    assert RemoveAt(ws, i)[if k < i then k else k - 1].tid == t;
  }

  lemma WakeTables(s: State, t: nat)
    requires TablesOk(s)
    ensures TablesOk(s.(threads := Wake(s.threads, t)))
  {
    var s' := s.(threads := Wake(s.threads, t));
    forall x <- s'.threads ensures ThreadOk(s', x) { assert ThreadOk(s, x); }
    forall p <- s'.processes ensures ProcessOk(s', p) { assert ProcessOk(s, p); }
  }

  /** A process that has just ended joins the zombies. */
  lemma LedgerEnd(s: State, z: Zombie)
    requires LedgerOk(s) && EndedOk(s, z) && (forall i :: 0 <= i < |s.ended| ==> s.ended[i].child != z.child)
    ensures LedgerOk(s.(ended := s.ended + [z], zombies := s.zombies + [z]))
  {
    hide Zombies, LastExit;
    var s' := s.(ended := s.ended + [z], zombies := s.zombies + [z]);
    forall i | 0 <= i < |s'.ended| ensures EndedOk(s', s'.ended[i]) {
      if i < |s.ended| { assert EndedOk(s, s.ended[i]); }
    }
  }

  lemma RecordExitOk(s: State, parent: nat, child: nat, status: nat)
    requires Core(s) && EndedOk(s, Zombie(parent, child, status))
    requires forall i :: 0 <= i < |s.ended| ==> s.ended[i].child != child
    ensures Core(RecordExit(s, parent, child, status))
  {
    hide TablesOk, WaitersOk, LedgerOk, LastExit, Without, FindWaiter, Wake, RemoveAt;
    var z := Zombie(parent, child, status);
    var s1 :=
      if parent in s.processes then
        s.(processes := s.processes[parent := s.processes[parent].(children := Without(s.processes[parent].children, child))])
      else s;
    if parent in s.processes { ChildrenOnly(s, parent, Without(s.processes[parent].children, child)); }
    LedgerEnd(s1, z);
    var s2 := s1.(zombies := s.zombies + [z], ended := s.ended + [z]);
    SameTables(s1, s2);
    var w := FindWaiter(s.waiters, parent, child, 0);
    if w.Some? {
      WakeOk(s.threads, s.waiters, w.value);
      WakeTables(s2, s.waiters[w.value].tid);
      var s3 := s2.(waiters := RemoveAt(s.waiters, w.value), threads := Wake(s.threads, s.waiters[w.value].tid));
      SameTables(s2.(threads := Wake(s.threads, s.waiters[w.value].tid)), s3);
      LedgerSame(s2, s3);
    }
  }

  lemma SameTables(s: State, s': State)
    requires TablesOk(s) && s'.processes == s.processes && s'.threads == s.threads && s'.forks == s.forks
    requires s'.nextPid == s.nextPid && s'.nextTid == s.nextTid
    ensures TablesOk(s')
  {
    forall x <- s'.threads ensures ThreadOk(s', x) { assert ThreadOk(s, x); }
    forall p <- s'.processes ensures ProcessOk(s', p) { assert ProcessOk(s, p); }
  }

  lemma LedgerSame(s: State, s': State)
    requires LedgerOk(s) && s'.processes == s.processes && s'.forks == s.forks && s'.nextPid == s.nextPid
    requires s'.ended == s.ended && s'.zombies == s.zombies && s'.reaps == s.reaps && s'.exits == s.exits
    ensures LedgerOk(s')
  {
    hide LastExit, Zombies;
    LedgerFrame(s, s');
  }

  lemma ExitOk(s: State, t: nat, status: nat)
    requires Core(s)
    ensures Core(ExitStep(s, t, status))
  {
    hide TablesOk, WaitersOk, LedgerOk, Without, RecordExit;
    if t in s.threads && !s.threads[t].blocked {
      TheProcess(s, t);
      var pid := s.threads[t].pid;
      var p := s.processes[pid];
      var rest := Without(p.threads, t);
      var s1 := s.(threads := s.threads - {t}, exits := s.exits + [Exited(t, pid, status)]);
      var s2 := if rest != [] then s1.(processes := s.processes[pid := p.(threads := rest)]) else s1.(processes := s.processes - {pid});
      ExitTables(s, s2, t);
      WaitersExit(s.threads, s.waiters, t);
      LedgerExit(s, s2, t, status);
      if rest == [] && p.parent.Some? {
        JustEnded(s, s2, pid);
        RecordExitOk(s2, p.parent.value, pid, status);
      }
    }
  }

  lemma TheProcess(s: State, t: nat)
    requires TablesOk(s) && t in s.threads
    ensures var pid := s.threads[t].pid; pid in s.processes && 1 <= pid < s.nextPid
    ensures var p := s.processes[s.threads[t].pid].parent; p.Some? ==> s.threads[t].pid in s.forks && s.forks[s.threads[t].pid] == p.value
  {
    assert ThreadOk(s, t);
    assert ProcessOk(s, s.threads[t].pid);
  }

  lemma JustEnded(s: State, s': State, pid: nat)
    requires LedgerOk(s) && pid in s.processes && s'.ended == s.ended
    ensures forall i :: 0 <= i < |s'.ended| ==> s'.ended[i].child != pid
  {
    hide LastExit, Zombies;
    forall i | 0 <= i < |s'.ended| ensures s'.ended[i].child != pid { assert EndedOk(s, s.ended[i]); }
  }

  // ---------------------------------------------------------------- waits

  lemma {:induction false} DropWaiterOk(ws: seq<Waiter>, t: nat)
    ensures forall i :: 0 <= i < |DropWaiter(ws, t)| ==> DropWaiter(ws, t)[i] in ws && DropWaiter(ws, t)[i].tid != t
    ensures (forall i :: 0 <= i < |ws| ==> ws[i].tid != t) ==> DropWaiter(ws, t) == ws
  {
    if ws != [] {
      DropWaiterOk(ws[1..], t);
      assert ws == [ws[0]] + ws[1..];
      if forall i :: 0 <= i < |ws| ==> ws[i].tid != t {
        assert forall i :: 0 <= i < |ws[1..]| ==> ws[1..][i] == ws[i + 1];
      }
    }
  }

  /** A thread that can run has no entry, so registering adds its only one. */
  lemma RegisterOk(threads: map<nat, Thread>, ws: seq<Waiter>, t: nat, target: Option<nat>)
    requires WaitersOk(threads, ws) && t in threads && !threads[t].blocked
    ensures WaitersOk(threads[t := Thread(threads[t].pid, true)], DropWaiter(ws, t) + [Waiter(threads[t].pid, t, target)])
  {
    hide DropWaiter;
    DropWaiterOk(ws, t);
    var threads' := threads[t := Thread(threads[t].pid, true)];
    var ws' := ws + [Waiter(threads[t].pid, t, target)];
    forall i | 0 <= i < |ws| ensures ws[i].tid != t { assert WaiterOk(threads, ws[i]); }
    forall i | 0 <= i < |ws'| ensures WaiterOk(threads', ws'[i]) {
      if i < |ws| { assert WaiterOk(threads, ws[i]); }
    }
    forall x | x in threads' && threads'[x].blocked ensures Registered(ws', x) {
      if x == t {
        assert ws'[|ws|].tid == t;
      } else {
        var k :| 0 <= k < |ws| && ws[k].tid == x;
        assert ws'[k].tid == x;
      }
    }
  }

  lemma RemoveMultiset(zs: seq<Zombie>, i: nat)
    requires i < |zs|
    ensures multiset(zs) == multiset(RemoveAt(zs, i)) + multiset{zs[i]}
  {
    assert zs == zs[..i] + [zs[i]] + zs[i + 1..];
  }

  lemma ReapOk(s: State, i: nat, t: nat, me: nat)
    requires LedgerOk(s) && i < |s.zombies| && s.zombies[i].parent == me
    ensures LedgerOk(s.(zombies := RemoveAt(s.zombies, i), reaps := s.reaps + [Reap(s.zombies[i], t, me)]))
  {
    hide LastExit, RemoveAt;
    var reaps' := s.reaps + [Reap(s.zombies[i], t, me)];
    var s' := s.(zombies := RemoveAt(s.zombies, i), reaps := reaps');
    RemoveMultiset(s.zombies, i);
    assert Zombies(reaps') == Zombies(s.reaps) + [s.zombies[i]];
    forall j | 0 <= j < |s'.ended| ensures EndedOk(s', s'.ended[j]) { assert EndedOk(s, s.ended[j]); }
  }

  lemma WaitOk(s: State, t: nat, pid: nat)
    requires Core(s)
    ensures Core(WaitStep(s, t, pid))
  {
    hide TablesOk, WaitersOk, LedgerOk, RemoveAt, DropWaiter;
    if t in s.threads && !s.threads[t].blocked {
      var me := s.threads[t].pid;
      var z := FindZombie(s.zombies, me, pid, 0);
      if z.Some? {
        ReapOk(s, z.value, t, me);
        SameTables(s, WaitStep(s, t, pid));
      } else {
        RegisterOk(s.threads, s.waiters, t, if pid == 0 then None else Some(pid));
        BlockTables(s, t);
        SameTables(s.(threads := s.threads[t := Thread(me, true)]), WaitStep(s, t, pid));
        LedgerSame(s, WaitStep(s, t, pid));
      }
    }
  }

  lemma BlockTables(s: State, t: nat)
    requires TablesOk(s) && t in s.threads
    ensures TablesOk(s.(threads := s.threads[t := Thread(s.threads[t].pid, true)]))
  {
    var s' := s.(threads := s.threads[t := Thread(s.threads[t].pid, true)]);
    forall x <- s'.threads ensures ThreadOk(s', x) { assert ThreadOk(s, x); }
    forall p <- s'.processes ensures ProcessOk(s', p) { assert ProcessOk(s, p); }
  }

  // ---------------------------------------------------------------- whole runs

  lemma ThreadLosesNone(s: State, pid: nat)
    requires NoneLost(s) && TablesOk(s)
    ensures NoneLost(NewThread(s, pid))
  {
    LostFrame(s, NewThread(s, pid));
  }

  lemma ForkLosesNone(s: State, parent: nat)
    requires NoneLost(s) && TablesOk(s) && parent in s.processes
    ensures NoneLost(ForkChild(s, parent))
  {
    hide NoneLost;
    FreshProcess(s);
    PidBelow(s, parent);
    LostFrame(s, ForkChild(s, parent));
  }

  lemma ExitLosesNone(s: State, t: nat, status: nat)
    requires NoneLost(s) && TablesOk(s)
    ensures NoneLost(ExitStep(s, t, status))
  {
    hide NoneLost, Without, TablesOk, FindWaiter, RemoveAt, Wake;
    if t in s.threads && !s.threads[t].blocked {
      TheProcess(s, t);
      var pid := s.threads[t].pid;
      var s' := ExitStep(s, t, status);
      ForkedHasParent(s, pid);
      if Without(s.processes[pid].threads, t) == [] && s.processes[pid].parent.Some? {
        assert s'.ended[|s.ended|].child == pid;
        assert HasEnded(s'.ended, pid);
      }
      LostFrame(s, s');
    }
  }

  lemma ForkedHasParent(s: State, pid: nat)
    requires NoneLost(s) && pid in s.processes
    ensures pid in s.forks ==> s.processes[pid].parent.Some?
  {
    assert pid in s.forks ==> ChildOk(s, pid);
  }

  /** Every forked process is accounted for after every operation. */
  lemma StepLosesNone(s: State, op: Op)
    requires Inv(s)
    ensures NoneLost(Step(s, op))
  {
    hide NoneLost, TablesOk, WaitersOk, LedgerOk, NewThread, ForkChild, ExitStep;
    match op
    case Launch =>
      var s1 := s.(processes := s.processes[s.nextPid := Process([], None, [])], nextPid := s.nextPid + 1);
      FreshProcess(s);
      LostFrame(s, s1);
      NewProcess(s, None);
      ThreadLosesNone(s1, s.nextPid);
    case Fork(t, frame, stack) =>
      if t in s.threads && s.threads[t].pid in s.processes {
        ForkLosesNone(s, s.threads[t].pid);
        ForkedTables(s, s.threads[t].pid);
        ThreadLosesNone(ForkChild(s, s.threads[t].pid), s.nextPid);
      }
    case Clone(t) =>
      if t in s.threads { ThreadLosesNone(s, s.threads[t].pid); }
    case Exit(t, status) => ExitLosesNone(s, t, status);
    case Wait(t, pid) => LostFrame(s, Step(s, op));
  }

  /** Every operation keeps the invariant. */
  lemma StepOk(s: State, op: Op)
    requires Inv(s)
    ensures Inv(Step(s, op))
  {
    hide Core, NoneLost, LaunchStep, ForkStep, CloneStep, ExitStep, WaitStep;
    StepLosesNone(s, op);
    match op
    case Launch => LaunchOk(s);
    case Fork(t, frame, stack) => ForkOk(s, t, frame, stack);
    case Clone(t) => CloneOk(s, t);
    case Exit(t, status) => ExitOk(s, t, status);
    case Wait(t, pid) => WaitOk(s, t, pid);
  }

  const START: State := State(map[], 1, map[], 1, [], [], [], [], [], map[])

  lemma StartOk()
    ensures Inv(START)
  {
  }

  ghost function After(ops: seq<Op>): (s: State)
    ensures Inv(s)
    decreases |ops|
  {
    StartOk();
    if ops == [] then START
    else
      var s := After(ops[..|ops| - 1]);
      StepOk(s, ops[|ops| - 1]);
      Step(s, ops[|ops| - 1])
  }

  /** No zombie and no reaped child is process `p`. */
  ghost predicate Unseen(s: State, p: nat) { forall z <- s.zombies + Zombies(s.reaps) :: z.child != p }

  /** Process `p` is `z` and nothing else, counted once among zombies and reaped children together. */
  ghost predicate SeenOnce(s: State, p: nat, z: Zombie) {
    && z.child == p && multiset(s.zombies)[z] + multiset(Zombies(s.reaps))[z] == 1
    && forall y <- s.zombies + Zombies(s.reaps) :: y.child == p ==> y == z
  }

  /** Every forked process that is no longer in the table is exactly one of: an unreaped zombie, or
      reaped, once. One that is still in the table is neither. */
  lemma ExactlyOnce(ops: seq<Op>, p: nat)
    requires p in After(ops).forks
    ensures if p in After(ops).processes then Unseen(After(ops), p) else exists z: Zombie :: SeenOnce(After(ops), p, z)
  {
    hide TablesOk, WaitersOk, LedgerOk, Unseen, SeenOnce;
    var s := After(ops);
    assert ChildOk(s, p);
    if p in s.processes {
      AliveUnseen(s, p);
    } else {
      var i :| 0 <= i < |s.ended| && s.ended[i].child == p;
      DeadOnce(s, i);
    }
  }

  lemma AliveUnseen(s: State, p: nat)
    requires LedgerOk(s) && p in s.processes
    ensures Unseen(s, p)
  {
    hide LedgerOk, Zombies;
    forall y <- s.zombies + Zombies(s.reaps) ensures y.child != p { OnRecord(s, y); RecordIs(s, y); }
  }

  lemma RecordIs(s: State, y: Zombie)
    requires LedgerOk(s) && y in s.ended
    ensures EndedOk(s, y)
  {
    hide EndedOk;
  }

  lemma DeadOnce(s: State, i: nat)
    requires LedgerOk(s) && i < |s.ended|
    ensures SeenOnce(s, s.ended[i].child, s.ended[i])
  {
    hide EndedOk;
    CountOne(s.ended, i);
    forall y <- s.zombies + Zombies(s.reaps) | y.child == s.ended[i].child ensures y == s.ended[i] { OnRecord(s, y); }
  }

  lemma OnRecord(s: State, y: Zombie)
    requires LedgerOk(s) && (y in s.zombies || y in Zombies(s.reaps))
    ensures y in s.ended
  {
    hide EndedOk;
    assert y in multiset(s.zombies) || y in multiset(Zombies(s.reaps));
    assert y in multiset(s.ended);
  }

  lemma CountOne(zs: seq<Zombie>, i: nat)
    requires i < |zs| && forall i, j :: 0 <= i < j < |zs| ==> zs[i].child != zs[j].child
    ensures multiset(zs)[zs[i]] == 1
  {
    var a, b := zs[..i], zs[i + 1..];
    assert zs == a + [zs[i]] + b;
    assert zs[i] !in a && zs[i] !in b;
  }

  /** A zombie is reaped only by a thread of the process that forked it, and the status handed over
      is that of the last of its threads to exit. */
  lemma ReapedByParent(ops: seq<Op>, i: nat)
    requires i < |After(ops).reaps|
    ensures var s := After(ops); var r := s.reaps[i];
      && r.zombie.child in s.forks && r.pid == r.zombie.parent == s.forks[r.zombie.child]
      && LastExit(s.exits, r.zombie.child) == Some(r.zombie.status)
      && r.zombie in s.ended
  {
    hide TablesOk, WaitersOk, LastExit;
    var s := After(ops);
    var z := Zombies(s.reaps)[i];
    assert z in multiset(Zombies(s.reaps)) && z in multiset(s.ended);
    var k :| 0 <= k < |s.ended| && s.ended[k] == z;
    assert EndedOk(s, s.ended[k]);
  }

  /** Waiter entries are exactly the blocked threads, one each, filed under their own process. */
  lemma OneEntryPerWaiter(ops: seq<Op>, t: nat)
    ensures var s := After(ops);
      && (forall i, j :: 0 <= i < j < |s.waiters| ==> s.waiters[i].tid != s.waiters[j].tid)
      && (t in s.threads && s.threads[t].blocked <==> Registered(s.waiters, t))
      && (forall i :: 0 <= i < |s.waiters| && s.waiters[i].tid == t ==> t in s.threads && s.threads[t].pid == s.waiters[i].parent)
  {
    hide TablesOk, LedgerOk;
    var s := After(ops);
    forall i | 0 <= i < |s.waiters| && s.waiters[i].tid == t
      ensures t in s.threads && s.threads[t].blocked && s.threads[t].pid == s.waiters[i].parent
    {
      assert WaiterOk(s.threads, s.waiters[i]);
    }
  }
}
