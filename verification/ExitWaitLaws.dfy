/** What each process call does to the tables, entry by entry. */
module ExitWaitLaws {
  import opened Common
  import opened Lists
  import opened ExitWaitSpec

  /** The caller is a thread that can run. */
  predicate Calls(s: State, t: nat) { t in s.threads && !s.threads[t].blocked }

  /** A call by anyone else does nothing. */
  lemma NobodyCalls(s: State, op: Op)
    requires (op.Fork? || op.Clone? || op.Exit? || op.Wait?) && !Calls(s, op.tid)
    ensures Step(s, op) == s
  {
  }

  /** wait takes the first zombie in line that is the caller's child and the one asked for, if one was. */
  lemma WaitReaps(s: State, t: nat, pid: nat, k: nat)
    requires Calls(s, t) && k < |s.zombies| && s.zombies[k].parent == s.threads[t].pid && (pid == 0 || s.zombies[k].child == pid)
    requires forall j :: 0 <= j < k && s.zombies[j].parent == s.threads[t].pid ==> pid != 0 && s.zombies[j].child != pid
    ensures Step(s, Wait(t, pid)) ==
            s.(zombies := s.zombies[..k] + s.zombies[k + 1..], reaps := s.reaps + [Reap(s.zombies[k], t, s.threads[t].pid)])
  {
    assert Matches(s.zombies[k], s.threads[t].pid, pid);
  }

  /** Without such a zombie the caller blocks and stands last in the line of waiters. */
  lemma WaitBlocks(s: State, t: nat, pid: nat)
    requires Inv(s) && Calls(s, t)
    requires forall z <- s.zombies :: z.parent == s.threads[t].pid ==> pid != 0 && z.child != pid
    ensures var me := s.threads[t].pid;
      Step(s, Wait(t, pid)) == s.(waiters := s.waiters + [Waiter(me, t, if pid == 0 then None else Some(pid))],
                                  threads := s.threads[t := Thread(me, true)])
  {
    hide TablesOk, LedgerOk, NoneLost, DropWaiter;
    DropWaiterOk(s.waiters, t);
    assert forall i :: 0 <= i < |s.waiters| ==> WaiterOk(s.threads, s.waiters[i]);
  }

  /** A new process has one thread and no parent. */
  lemma LaunchAdds(s: State)
    ensures var p, u := s.nextPid, s.nextTid;
      Step(s, Launch) == s.(processes := s.processes[p := Process([u], None, [])], threads := s.threads[u := Thread(p, false)],
                            nextPid := p + 1, nextTid := u + 1)
  {
    assert [] + [s.nextTid] == [s.nextTid];
    var e := Process([], None, []);
    assert s.processes[s.nextPid := e][s.nextPid := Process([s.nextTid], None, [])] == s.processes[s.nextPid := Process([s.nextTid], None, [])];
  }

  /** fork: a process with one thread, last among the children of the caller's. Without the first frame
      nothing happens; without the second the child has no thread. */
  lemma ForkLinks(s: State, t: nat, frame: bool, stack: bool)
    requires Inv(s) && Calls(s, t)
    ensures var me, c, u := s.threads[t].pid, s.nextPid, s.nextTid;
      && me in s.processes && c !in s.processes && u !in s.threads
      && var p := s.processes[me];
         var linked := s.processes[me := Process(p.threads, p.parent, p.children + [c])];
         Step(s, Fork(t, frame, stack)) ==
         if !frame then s
         else if !stack then
           s.(processes := linked[c := Process([], Some(me), [])], nextPid := c + 1, forks := s.forks[c := me])
         else
           s.(processes := linked[c := Process([u], Some(me), [])], nextPid := c + 1, forks := s.forks[c := me],
              threads := s.threads[u := Thread(c, false)], nextTid := u + 1)
  {
    hide WaitersOk, LedgerOk, NoneLost;
    var me, c, u := s.threads[t].pid, s.nextPid, s.nextTid;
    Fresh(s, t);
    var p := s.processes[me];
    var linked: map<nat, Process> := s.processes[me := Process(p.threads, p.parent, p.children + [c])];
    assert [] + [u] == [u];
    assert s.processes[c := Process([], Some(me), [])][me := p.(children := p.children + [c])] == linked[c := Process([], Some(me), [])];
    var bare: map<nat, Process> := linked[c := Process([], Some(me), [])];
    assert bare[c := Process([u], Some(me), [])] == linked[c := Process([u], Some(me), [])];
  }

  lemma Fresh(s: State, t: nat)
    requires Inv(s) && t in s.threads
    ensures s.threads[t].pid in s.processes && s.nextPid !in s.processes && s.nextTid !in s.threads
  {
    hide WaitersOk, LedgerOk, NoneLost;
    assert ThreadOk(s, t);
    assert s.nextPid in s.processes ==> ProcessOk(s, s.nextPid);
    assert s.nextTid in s.threads ==> ThreadOk(s, s.nextTid);
  }

  /** clone: one more thread of the caller's process. */
  lemma CloneAdds(s: State, t: nat)
    requires Inv(s) && Calls(s, t)
    ensures var me, u := s.threads[t].pid, s.nextTid;
      && me in s.processes && u !in s.threads
      && var p := s.processes[me];
         Step(s, Clone(t)) == s.(processes := s.processes[me := Process(p.threads + [u], p.parent, p.children)],
                                 threads := s.threads[u := Thread(me, false)], nextTid := u + 1)
  {
    hide Inv;
    Fresh(s, t);
  }

  /** The state after thread `t` has left, before anything is said of its process. */
  function Left(s: State, t: nat, status: nat): State
    requires t in s.threads
  {
    s.(threads := s.threads - {t}, exits := s.exits + [Exited(t, s.threads[t].pid, status)])
  }

  /** exit while the process has other threads: it only loses this one. */
  lemma ExitLeaves(s: State, t: nat, status: nat)
    requires Inv(s) && Calls(s, t)
    requires s.threads[t].pid in s.processes ==> s.processes[s.threads[t].pid].threads != [t]
    ensures var me, s' := s.threads[t].pid, Step(s, Exit(t, status));
      && me in s.processes && me in s'.processes
      && var p, p' := s.processes[me], s'.processes[me];
         && s' == Left(s, t, status).(processes := s.processes[me := p'])
         && p'.parent == p.parent && p'.children == p.children && (forall x :: x in p'.threads <==> x in p.threads && x != t)
  {
    hide WaitersOk, LedgerOk, NoneLost, RecordExit;
    Fresh(s, t);
    var me := s.threads[t].pid;
    var p := s.processes[me];
    assert ProcessOk(s, me) && ThreadOk(s, t);
    WithoutOk(p.threads, t);
    Others(p.threads, t);
  }

  /** A list without repetitions that is not just `t` keeps something without `t`. */
  lemma Others(q: seq<nat>, t: nat)
    requires NoDup(q) && t in q
    ensures Without(q, t) == [] <==> q == [t]
  {
    WithoutOk(q, t);
    assert forall x <- q :: x == t || x in Without(q, t);
    if |q| > 1 { assert q[0] in q && q[1] in q && q[0] != q[1]; }
  }

  /** exit of the last thread of a process without a parent: the process is gone. */
  lemma ExitOrphan(s: State, t: nat, status: nat)
    requires Calls(s, t) && s.threads[t].pid in s.processes
    requires s.processes[s.threads[t].pid].threads == [t] && s.processes[s.threads[t].pid].parent == None
    ensures Step(s, Exit(t, status)) == Left(s, t, status).(processes := s.processes - {s.threads[t].pid})
  {
    assert Without([t], t) == [];
  }

  /** The state after the last thread of process `me`, a child of `q`, has left: the process is gone, its
      parent no longer lists it, and a zombie with the status is last in line. */
  ghost predicate Died(s: State, t: nat, status: nat, q: nat, s': State)
    requires t in s.threads
  {
    var me := s.threads[t].pid;
    && s'.zombies == s.zombies + [Zombie(q, me, status)] && s'.ended == s.ended + [Zombie(q, me, status)]
    && s'.exits == s.exits + [Exited(t, me, status)]
    && s'.nextPid == s.nextPid && s'.nextTid == s.nextTid && s'.reaps == s.reaps && s'.forks == s.forks
    && s'.processes.Keys == s.processes.Keys - {me}
    && (forall x <- s'.processes :: x != q ==> s'.processes[x] == s.processes[x])
    && (q in s'.processes ==>
          var p, p' := s.processes[q], s'.processes[q];
          && p'.threads == p.threads && p'.parent == p.parent && p'.children == Without(p.children, me)
          && (forall x :: x in p'.children <==> x in p.children && x != me))
  }

  /** With a parent: the first in line of the parent's threads waiting for any child or for this one
      leaves the line and can run. */
  lemma ExitWakes(s: State, t: nat, status: nat, q: nat, k: nat)
    requires Inv(s) && Calls(s, t) && s.threads[t].pid in s.processes
    requires s.processes[s.threads[t].pid].threads == [t] && s.processes[s.threads[t].pid].parent == Some(q)
    requires k < |s.waiters| && s.waiters[k].parent == q && s.waiters[k].target in {None, Some(s.threads[t].pid)}
    requires forall j :: 0 <= j < k && s.waiters[j].parent == q ==> s.waiters[j].target !in {None, Some(s.threads[t].pid)}
    ensures var s', u := Step(s, Exit(t, status)), s.waiters[k].tid;
      && Died(s, t, status, q, s') && s'.waiters == s.waiters[..k] + s.waiters[k + 1..]
      && u in s.threads && u != t && s'.threads == (s.threads - {t})[u := Thread(q, false)]
  {
    hide TablesOk, LedgerOk, NoneLost, Without;
    var me := s.threads[t].pid;
    assert Without([t], t) == [] by { Only(t); }
    if q in s.processes { WithoutOk(s.processes[q].children, me); }
    assert WaiterOk(s.threads, s.waiters[k]);
    assert FindWaiter(s.waiters, q, me, 0) == Some(k);
  }

  lemma Only(t: nat)
    ensures Without([t], t) == []
  {
  }

  /** If nobody waits for it, only the zombie is left. */
  lemma ExitUnnoticed(s: State, t: nat, status: nat, q: nat)
    requires Calls(s, t) && s.threads[t].pid in s.processes
    requires s.processes[s.threads[t].pid].threads == [t] && s.processes[s.threads[t].pid].parent == Some(q)
    requires forall w <- s.waiters :: w.parent == q ==> w.target !in {None, Some(s.threads[t].pid)}
    ensures var s' := Step(s, Exit(t, status));
      Died(s, t, status, q, s') && s'.waiters == s.waiters && s'.threads == s.threads - {t}
  {
    hide Without;
    var me := s.threads[t].pid;
    Only(t);
    if q in s.processes { WithoutOk(s.processes[q].children, me); }
  }
}
