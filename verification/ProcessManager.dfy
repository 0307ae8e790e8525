/** The process, thread, zombie and waiter tables as the system calls update them. */
module Processes {
  import opened Common
  import opened Lists
  import opened ExitWaitSpec

  class ProcessManager {
    var processes: map<nat, Process>
    var nextPid: nat
    var threads: map<nat, Thread>
    var nextTid: nat
    var zombies: seq<Zombie>
    var waiters: seq<Waiter>

    ghost var ended: seq<Zombie>
    ghost var exits: seq<Exited>
    ghost var reaps: seq<Reap>
    ghost var forks: map<nat, nat>

    ghost function Now(): State
      reads this
    {
      State(processes, nextPid, threads, nextTid, zombies, waiters, ended, exits, reaps, forks)
    }

    ghost predicate Valid()
      reads this
    {
      Inv(Now())
    }

    constructor ()
      ensures Valid() && Now() == START
    {
      processes, nextPid, threads, nextTid := map[], 1, map[], 1;
      zombies, waiters := [], [];
      ended, exits, reaps, forks := [], [], [], map[];
      new;
      StartOk();
    }

    /** create_thread */
    method CreateThread(pid: nat) returns (t: nat)
      modifies this`threads, this`nextTid, this`processes
      ensures t == old(nextTid) && Now() == NewThread(old(Now()), pid)
    {
      t := nextTid;
      nextTid := nextTid + 1;
      threads := threads[t := Thread(pid, false)];
      if pid in processes {
        processes := processes[pid := processes[pid].(threads := processes[pid].threads + [t])];
      }
    }

    /** create_process followed by create_thread. */
    method Launch() returns (pid: nat)
      requires Valid()
      modifies this
      ensures Valid() && Now() == Step(old(Now()), Op.Launch)
      ensures old(pid !in processes) && pid in processes
    {
      hide Inv;
      StepOk(Now(), Op.Launch);
      FreshPid(Now());
      pid := nextPid;
      nextPid := nextPid + 1;
      processes := processes[pid := Process([], None, [])];
      var _ := CreateThread(pid);
    }

    /** sys_fork: the child is a new process linked to the caller's, with one thread. If the second
        frame cannot be had, the child stays behind without a thread. */
    method SysFork(t: nat, frame: bool, stack: bool) returns (r: Result<nat>)
      requires Valid() && t in threads && !threads[t].blocked
      modifies this
      ensures Valid() && Now() == Step(old(Now()), Fork(t, frame, stack))
      ensures r.Ok? <==> frame && stack
      ensures r.Ok? ==> old(r.value !in processes) && r.value in processes && processes[r.value].parent == Some(old(threads[t].pid))
    {
      hide Inv, NewThread, ForkChild;
      StepOk(Now(), Fork(t, frame, stack));
      KnownProcess(Now(), t);
      FreshPid(Now());
      var parent := threads[t].pid;
      if !frame { return Err(NoMemory); }
      ForkedChild(Now(), parent);
      var child := ForkProcess(parent);
      if !stack { return Err(NoMemory); }
      var _ := CreateThread(child);
      return Ok(child);
    }

    /** The child's entry in the table, in the parent's list and with its parent. */
    method ForkProcess(parent: nat) returns (child: nat)
      requires parent in processes && nextPid !in processes
      modifies this`processes, this`nextPid, this`forks
      ensures child == old(nextPid) && Now() == ForkChild(old(Now()), parent)
    {
      child := nextPid;
      nextPid := nextPid + 1;
      processes := processes[child := Process([], None, [])];
      processes := processes[child := processes[child].(parent := Some(parent))];
      processes := processes[parent := processes[parent].(children := processes[parent].children + [child])];
      forks := forks[child := parent];
      assert Now() == ForkChild(old(Now()), parent);
    }

    /** sys_clone: a new thread in the caller's process. */
    method SysClone(t: nat) returns (u: nat)
      requires Valid() && t in threads && !threads[t].blocked
      modifies this
      ensures Valid() && Now() == Step(old(Now()), Clone(t))
      ensures u in threads && threads[u].pid == old(threads[t].pid)
    {
      hide Inv;
      StepOk(Now(), Clone(t));
      u := CreateThread(threads[t].pid);
    }

    /** take_zombie: the first zombie of this parent, or the one asked for. */
    method TakeZombie(parent: nat, pid: nat) returns (r: Option<Zombie>)
      modifies this`zombies
      ensures var i := FindZombie(old(zombies), parent, pid, 0);
        if i.Some? then r == Some(old(zombies)[i.value]) && zombies == RemoveAt(old(zombies), i.value)
        else r == None && zombies == old(zombies)
    {
      var i := 0;
      while i < |zombies|
        invariant 0 <= i <= |zombies| && zombies == old(zombies)
        invariant FindZombie(zombies, parent, pid, 0) == FindZombie(zombies, parent, pid, i)
      {
        if zombies[i].parent == parent && (pid == 0 || zombies[i].child == pid) {
          r := Some(zombies[i]);
          zombies := zombies[..i] + zombies[i + 1..];
          return;
        }
        i := i + 1;
      }
      r := None;
    }

    /** register_waiter: an old entry of the same thread is dropped first. */
    method RegisterWaiter(parent: nat, t: nat, pid: nat)
      modifies this`waiters
      ensures waiters == DropWaiter(old(waiters), t) + [Waiter(parent, t, if pid == 0 then None else Some(pid))]
    {
      var kept: seq<Waiter> := [];
      var i := 0;
      while i < |waiters|
        invariant 0 <= i <= |waiters| && waiters == old(waiters)
        invariant DropWaiter(waiters, t) == kept + DropWaiter(waiters[i..], t)
      {
        if waiters[i].tid != t { kept := kept + [waiters[i]]; }
        i := i + 1;
      }
      waiters := kept + [Waiter(parent, t, if pid == 0 then None else Some(pid))];
    }

    /** One iteration of the loop in sys_wait: a zombie of the caller's process is handed over, or
        the caller registers and blocks. */
    method SysWait(t: nat, pid: nat) returns (r: Option<Zombie>)
      requires Valid() && t in threads && !threads[t].blocked
      modifies this
      ensures Valid() && Now() == Step(old(Now()), Wait(t, pid))
      ensures r.Some? ==> r.value in old(zombies) && r.value.parent == old(threads[t].pid) && (pid == 0 || r.value.child == pid)
      ensures r.None? ==> threads[t].blocked
      ensures r.None? ==> forall z <- old(zombies) :: z.parent == old(threads[t].pid) ==> pid != 0 && z.child != pid
    {
      hide Inv, FindZombie, RemoveAt, DropWaiter;
      StepOk(Now(), Wait(t, pid));
      var me := threads[t].pid;
      r := TakeZombie(me, pid);
      if r.Some? {
        reaps := reaps + [Reap(r.value, t, me)];
        return;
      }
      RegisterWaiter(me, t, pid);
      threads := threads[t := threads[t].(blocked := true)];
    }

    /** record_child_exit: the parent forgets the child, a zombie is left, and the first waiter that
        asked for it is woken. */
    method RecordChildExit(parent: nat, child: nat, status: nat)
      modifies this
      ensures Now() == RecordExit(old(Now()), parent, child, status)
    {
      hide Without, RemoveAt;
      if parent in processes {
        processes := processes[parent := processes[parent].(children := Without(processes[parent].children, child))];
      }
      zombies := zombies + [Zombie(parent, child, status)];
      ended := ended + [Zombie(parent, child, status)];
      var i := FirstWaiter(parent, child);
      if i.Some? {
        var w := waiters[i.value];
        waiters := RemoveAt(waiters, i.value);
        if w.tid in threads && threads[w.tid].blocked {
          threads := threads[w.tid := threads[w.tid].(blocked := false)];
        }
      }
    }

    method FirstWaiter(parent: nat, child: nat) returns (r: Option<nat>)
      ensures r == FindWaiter(waiters, parent, child, 0)
    {
      var i := 0;
      while i < |waiters|
        invariant 0 <= i <= |waiters| && FindWaiter(waiters, parent, child, 0) == FindWaiter(waiters, parent, child, i)
      {
        if waiters[i].parent == parent && (waiters[i].target == None || waiters[i].target == Some(child)) {
          return Some(i);
        }
        i := i + 1;
      }
      return None;
    }

    /** finalize_thread, as sys_exit calls it. */
    method SysExit(t: nat, status: nat)
      requires Valid() && t in threads && !threads[t].blocked
      modifies this
      ensures Valid() && Now() == Step(old(Now()), Exit(t, status))
      ensures t !in threads
    {
      hide Inv, Without, RecordExit;
      StepOk(Now(), Exit(t, status));
      ThreadGone(Now(), t, status);
      KnownProcess(Now(), t);
      var pid := threads[t].pid;
      threads := threads - {t};
      exits := exits + [Exited(t, pid, status)];
      var rest := Without(processes[pid].threads, t);
      if rest == [] {
        var parent := processes[pid].parent;
        processes := processes - {pid};
        if parent.Some? { RecordChildExit(parent.value, pid, status); }
      } else {
        processes := processes[pid := processes[pid].(threads := rest)];
      }
    }
  }

  lemma FreshPid(s: State)
    requires Inv(s)
    ensures s.nextPid !in s.processes && s.nextPid >= 1
  {
    hide WaitersOk, LedgerOk, NoneLost;
    assert s.nextPid in s.processes ==> ProcessOk(s, s.nextPid);
  }

  lemma ForkedChild(s: State, parent: nat)
    requires parent in s.processes && parent != s.nextPid
    ensures var ps := NewThread(ForkChild(s, parent), s.nextPid).processes;
      s.nextPid in ps && ps[s.nextPid].parent == Some(parent)
  {
  }

  lemma KnownProcess(s: State, t: nat)
    requires Inv(s) && t in s.threads
    ensures s.threads[t].pid in s.processes && s.threads[t].pid != s.nextPid
  {
    hide WaitersOk, LedgerOk, NoneLost;
    TheProcess(s, t);
  }

  lemma ThreadGone(s: State, t: nat, status: nat)
    requires t in s.threads && !s.threads[t].blocked
    ensures t !in Step(s, Exit(t, status)).threads
  {
    hide Without, FindWaiter, RemoveAt;
  }
}
