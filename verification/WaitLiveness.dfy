/**
 Which blocked waiters of sys_wait can still be woken (record_child_exit of src/syscall/mod.rs wakes
 the first matching waiter only).
 */
module WaitLiveness {
  import opened Common
  import opened Lists
  import opened ExitWaitSpec

  /** The state after further operations. */
  function From(s: State, ops: seq<Op>): State
    decreases |ops|
  {
    if ops == [] then s else From(Step(s, ops[0]), ops[1..])
  }

  lemma {:induction false} FromConcat(s: State, a: seq<Op>, b: seq<Op>)
    ensures From(s, a + b) == From(From(s, a), b)
    decreases |a|
  {
    hide Step;
    if a == [] {
      assert a + b == b;
    } else {
      assert (a + b)[0] == a[0] && (a + b)[1..] == a[1..] + b;
      FromConcat(Step(s, a[0]), a[1..], b);
    }
  }

  lemma {:induction false} FromOk(s: State, ops: seq<Op>)
    requires Inv(s)
    ensures Inv(From(s, ops))
    decreases |ops|
  {
    hide Inv, Step;
    if ops != [] {
      StepOk(s, ops[0]);
      FromOk(Step(s, ops[0]), ops[1..]);
    }
  }

  lemma {:induction false} FromStart(ops: seq<Op>)
    ensures From(START, ops) == After(ops)
    decreases |ops|
  {
    hide Step, Inv;
    if ops != [] {
      var n := |ops| - 1;
      assert ops == ops[..n] + [ops[n]];
      FromStart(ops[..n]);
      FromConcat(START, ops[..n], [ops[n]]);
      FromOne(After(ops[..n]), ops[n]);
    }
  }

  // ---------------------------------------------------------------- waiters that stay blocked

  /** Process `c` is a child of `p` that has not ended, or does not exist yet. */
  predicate Expected(s: State, p: nat, c: nat) {
    c >= s.nextPid || (c in s.processes && s.processes[c].parent == Some(p))
  }

  /** An entry before `i` waits for the same child. */
  ghost predicate Overtaken(ws: seq<Waiter>, i: nat)
    requires i < |ws|
  {
    exists j :: 0 <= j < i && ws[j].parent == ws[i].parent && ws[j].target == ws[i].target
  }

  /** Entry `i` waits for a process that is not, and will not be, a living child of its own process,
      or an earlier entry will get that child's only wake-up. */
  ghost predicate Doomed(s: State, i: nat)
    requires i < |s.waiters|
  {
    var w := s.waiters[i];
    w.target.Some? && (!Expected(s, w.parent, w.target.value) || Overtaken(s.waiters, i))
  }

  /** The entry `w` is still there and doomed. */
  ghost predicate Stuck(s: State, w: Waiter) {
    exists i :: 0 <= i < |s.waiters| && s.waiters[i] == w && Doomed(s, i)
  }

  /** What is not expected never becomes expected. */
  lemma NeverExpected(s: State, s': State, p: nat, c: nat)
    requires !Expected(s, p, c) && s'.nextPid >= s.nextPid
    requires forall x <- s'.processes :: (x in s.processes && s'.processes[x].parent == s.processes[x].parent) || x >= s.nextPid
    ensures !Expected(s', p, c)
  {
  }

  /** A step that only adds entries, threads and processes. */
  lemma GrowthKeepsStuck(s: State, s': State, w: Waiter)
    requires Stuck(s, w) && s.waiters <= s'.waiters && s'.nextPid >= s.nextPid
    requires forall x <- s'.processes :: (x in s.processes && s'.processes[x].parent == s.processes[x].parent) || x >= s.nextPid
    ensures Stuck(s', w)
  {
    hide Expected;
    var i :| 0 <= i < |s.waiters| && s.waiters[i] == w && Doomed(s, i);
    assert s'.waiters[i] == w;
    if Overtaken(s.waiters, i) {
      var j :| 0 <= j < i && s.waiters[j].parent == s.waiters[i].parent && s.waiters[j].target == s.waiters[i].target;
      assert s'.waiters[j] == s.waiters[j];
    } else {
      NeverExpected(s, s', w.parent, w.target.value);
    }
  }

  /** The end of child `c` of `p` removes the first entry it wakes, and never a doomed one. */
  lemma RemovalKeepsStuck(s: State, s': State, w: Waiter, m: nat, p: nat, c: nat)
    requires Stuck(s, w) && m < |s.waiters| && s'.waiters == RemoveAt(s.waiters, m) && s'.nextPid == s.nextPid
    requires Wakes(s.waiters[m], p, c) && forall j :: 0 <= j < m ==> !Wakes(s.waiters[j], p, c)
    requires c in s.processes && s.processes[c].parent == Some(p) && c < s.nextPid && c !in s'.processes
    requires forall x <- s'.processes :: (x in s.processes && s'.processes[x].parent == s.processes[x].parent) || x >= s.nextPid
    ensures Stuck(s', w)
  {
    hide RemoveAt;
    RemovedIs(s.waiters, m);
    var ws, ws' := s.waiters, s'.waiters;
    var i :| 0 <= i < |ws| && ws[i] == w && Doomed(s, i);
    assert i != m by {
      if Overtaken(ws, i) {
        var j :| 0 <= j < i && ws[j].parent == ws[i].parent && ws[j].target == ws[i].target;
        assert Wakes(ws[i], p, c) ==> Wakes(ws[j], p, c);
      }
    }
    var k := if i < m then i else i - 1;
    assert ws'[k] == w;
    if !Expected(s, w.parent, w.target.value) {
      NeverExpected(s, s', w.parent, w.target.value);
    } else {
      var j :| 0 <= j < i && ws[j].parent == ws[i].parent && ws[j].target == ws[i].target;
      if j != m { assert ws'[if j < m then j else j - 1] == ws[j]; }
    }
  }

  lemma {:induction false} DropNobody(ws: seq<Waiter>, t: nat)
    requires forall i :: 0 <= i < |ws| ==> ws[i].tid != t
    ensures DropWaiter(ws, t) == ws
  {
    if ws != [] { DropNobody(ws[1..], t); }
  }

  /** A thread that runs has no entry. */
  lemma RunnerUnlisted(s: State, t: nat)
    requires Inv(s) && t in s.threads && !s.threads[t].blocked
    ensures forall i :: 0 <= i < |s.waiters| ==> s.waiters[i].tid != t
  {
    hide TablesOk, LedgerOk, NoneLost;
    forall i | 0 <= i < |s.waiters| ensures s.waiters[i].tid != t { assert WaiterOk(s.threads, s.waiters[i]); }
  }

  lemma ExitKeepsStuck(s: State, t: nat, status: nat, w: Waiter)
    requires Inv(s) && Stuck(s, w)
    ensures Stuck(ExitStep(s, t, status), w)
  {
    hide WaitersOk, LedgerOk, NoneLost, Stuck, RemoveAt, Wake, Wakes, Lists.Without;
    if t in s.threads && !s.threads[t].blocked {
      var pid := s.threads[t].pid;
      TheProcess(s, t);
      var p := s.processes[pid];
      var s' := ExitStep(s, t, status);
      if Without(p.threads, t) == [] && p.parent.Some? {
        var f := FindWaiter(s.waiters, p.parent.value, pid, 0);
        if f.Some? {
          RemovalKeepsStuck(s, s', w, f.value, p.parent.value, pid);
        } else {
          GrowthKeepsStuck(s, s', w);
        }
      } else {
        GrowthKeepsStuck(s, s', w);
      }
    }
  }

  lemma StepKeepsStuck(s: State, op: Op, w: Waiter)
    requires Inv(s) && Stuck(s, w)
    ensures Stuck(Step(s, op), w)
  {
    hide Inv, Stuck, ExitStep, DropWaiter;
    match op
    case Launch => GrowthKeepsStuck(s, Step(s, op), w);
    case Fork(t, frame, stack) => GrowthKeepsStuck(s, Step(s, op), w);
    case Clone(t) => GrowthKeepsStuck(s, Step(s, op), w);
    case Exit(t, status) => ExitKeepsStuck(s, t, status, w);
    case Wait(t, pid) =>
      if t in s.threads && !s.threads[t].blocked {
        RunnerUnlisted(s, t);
        DropNobody(s.waiters, t);
      }
      GrowthKeepsStuck(s, Step(s, op), w);
  }

  /** A doomed waiter stays blocked, whatever happens. */
  lemma {:induction false} DoomedForever(s: State, ops: seq<Op>, w: Waiter)
    requires Inv(s) && Stuck(s, w)
    ensures var s' := From(s, ops); Stuck(s', w) && w.tid in s'.threads && s'.threads[w.tid].blocked
    decreases |ops|
  {
    hide Inv, Stuck, Step;
    if ops == [] {
      StuckIsBlocked(s, w);
    } else {
      StepOk(s, ops[0]);
      StepKeepsStuck(s, ops[0], w);
      DoomedForever(Step(s, ops[0]), ops[1..], w);
    }
  }

  lemma StuckIsBlocked(s: State, w: Waiter)
    requires Inv(s) && Stuck(s, w)
    ensures w.tid in s.threads && s.threads[w.tid].blocked
  {
    hide TablesOk, LedgerOk, NoneLost, Doomed;
    var i :| 0 <= i < |s.waiters| && s.waiters[i] == w && Doomed(s, i);
    assert WaiterOk(s.threads, s.waiters[i]);
  }

  // ---------------------------------------------------------------- waiters that can be woken

  /** Threads that run still run, and processes keep their threads and parents. */
  ghost predicate Undisturbed(s: State, s': State) {
    && s'.nextPid >= s.nextPid
    && (forall x <- s.threads :: !s.threads[x].blocked ==> x in s'.threads && s'.threads[x] == s.threads[x])
    && (forall x <- s.processes :: x in s'.processes && SameProcess(s, s', x))
  }

  predicate SameProcess(s: State, s': State, x: nat)
    requires x in s.processes && x in s'.processes
  {
    s'.processes[x].threads == s.processes[x].threads && s'.processes[x].parent == s.processes[x].parent
  }

  lemma UndisturbedTrans(a: State, b: State, c: State)
    requires Undisturbed(a, b) && Undisturbed(b, c)
    ensures Undisturbed(a, c)
  {
    forall x <- a.processes ensures x in c.processes && SameProcess(a, c, x) {
      assert SameProcess(a, b, x) && SameProcess(b, c, x);
    }
  }

  /** Thread `t` runs. */
  predicate Runs(s: State, t: nat) { t in s.threads && !s.threads[t].blocked }

  lemma LaunchFacts(s: State)
    requires Inv(s)
    ensures var s' := Step(s, Launch); Inv(s') && Undisturbed(s, s') && s'.waiters == s.waiters && s'.nextPid == s.nextPid + 1
  {
    hide Inv;
    StepOk(s, Launch);
    Fresh(s);
  }

  lemma Fresh(s: State)
    requires Inv(s)
    ensures s.nextPid !in s.processes && s.nextTid !in s.threads
  {
    hide WaitersOk, LedgerOk, NoneLost, TablesOk;
    FreshProcess(s);
    FreshThread(s);
  }

  lemma Home(s: State, t: nat)
    requires Inv(s) && t in s.threads
    ensures s.threads[t].pid in s.processes && 1 <= s.threads[t].pid < s.nextPid
  {
    hide WaitersOk, LedgerOk, NoneLost, TablesOk;
    TheProcess(s, t);
  }

  /** A fork that succeeds: a child with one thread that runs. */
  lemma ForkFacts(s: State, u: nat)
    requires Inv(s) && Runs(s, u)
    ensures var s' := Step(s, Fork(u, true, true)); var n := s.nextPid;
      && Inv(s') && Undisturbed(s, s') && s'.waiters == s.waiters && s'.nextPid == n + 1
      && n in s'.processes && s'.processes[n].threads == [s.nextTid] && s'.processes[n].parent == Some(s.threads[u].pid)
      && s'.threads == s.threads[s.nextTid := Thread(n, false)] && s.nextTid !in s.threads && n !in s.processes
  {
    hide Inv;
    StepOk(s, Fork(u, true, true));
    Fresh(s);
    Home(s, u);
  }

  /** The status of threads after `woken` was unblocked and `gone` left. */
  ghost predicate ThreadsAfter(s: State, s': State, gone: nat, woken: Option<nat>) {
    forall x <- s.threads :: x != gone ==>
      && x in s'.threads && s'.threads[x].pid == s.threads[x].pid
      && s'.threads[x].blocked == (s.threads[x].blocked && woken != Some(x))
  }

  /** The last thread of a child exits. */
  lemma LastExitFacts(s: State, t: nat)
    requires Inv(s) && Runs(s, t) && s.threads[t].pid in s.processes
    requires var p := s.processes[s.threads[t].pid]; p.threads == [t] && p.parent.Some?
    ensures var s', c := Step(s, Exit(t, 0)), s.threads[t].pid;
      var f := FindWaiter(s.waiters, s.processes[c].parent.value, c, 0);
      && Inv(s') && s'.nextPid == s.nextPid
      && s'.waiters == (if f.Some? then RemoveAt(s.waiters, f.value) else s.waiters)
      && ThreadsAfter(s, s', t, if f.Some? then Some(s.waiters[f.value].tid) else None)
      && (forall x <- s.processes :: x != c ==> x in s'.processes && SameProcess(s, s', x))
  {
    hide Inv, RemoveAt, FindWaiter;
    StepOk(s, Exit(t, 0));
    assert Without([t], t) == [] by { assert [t][1..] == []; }
  }

  /** A thread of a larger process exits. */
  lemma OneExitFacts(s: State, t: nat)
    requires Inv(s) && Runs(s, t) && s.threads[t].pid in s.processes
    requires var p := s.processes[s.threads[t].pid]; NoDup(p.threads) && |p.threads| > 1 && p.threads[0] == t
    ensures var s', c := Step(s, Exit(t, 0)), s.threads[t].pid;
      && Inv(s') && s'.nextPid == s.nextPid && s'.waiters == s.waiters && ThreadsAfter(s, s', t, None)
      && c in s'.processes && s'.processes[c].threads == s.processes[c].threads[1..] && s'.processes[c].parent == s.processes[c].parent
  {
    hide Inv;
    StepOk(s, Exit(t, 0));
    var q := s.processes[s.threads[t].pid].threads;
    WithoutFirst(q);
  }

  lemma WithoutFirst(q: seq<nat>)
    requires NoDup(q) && q != []
    ensures Without(q, q[0]) == q[1..]
  {
    PopQueue(q);
    WithoutAbsent(q[1..], q[0]);
  }

  lemma {:induction false} WithoutAbsent(q: seq<nat>, x: nat)
    requires x !in q
    ensures Without(q, x) == q
  {
    if q != [] {
      assert q == [q[0]] + q[1..];
      WithoutAbsent(q[1..], x);
    }
  }

  lemma FromOne(s: State, op: Op)
    ensures From(s, [op]) == Step(s, op)
  {
    hide Step;
    assert [op][1..] == [];
    assert From(Step(s, op), []) == Step(s, op);
  }

  lemma FromCons(s: State, op: Op, ops: seq<Op>)
    ensures From(s, [op] + ops) == From(Step(s, op), ops)
  {
    hide Step;
    assert ([op] + ops)[1..] == ops;
  }

  /** A child that is forked and exits at once wakes the first waiter that accepts it. */
  lemma Nudge(s: State, u: nat) returns (ops: seq<Op>)
    requires Inv(s) && Runs(s, u)
    ensures var s' := From(s, ops); var f := FindWaiter(s.waiters, s.threads[u].pid, s.nextPid, 0);
      && Inv(s') && Undisturbed(s, s') && s'.waiters == (if f.Some? then RemoveAt(s.waiters, f.value) else s.waiters)
      && ThreadsAfter(s, s', s.nextTid, if f.Some? then Some(s.waiters[f.value].tid) else None)
  {
    hide Inv, Step, RemoveAt, FindWaiter;
    ops := [Fork(u, true, true)] + [Exit(s.nextTid, 0)];
    ForkFacts(s, u);
    var s1 := Step(s, Fork(u, true, true));
    LastExitFacts(s1, s.nextTid);
    FromCons(s, Fork(u, true, true), [Exit(s.nextTid, 0)]);
    FromOne(s1, Exit(s.nextTid, 0));
    var s2 := Step(s1, Exit(s.nextTid, 0));
    var f := FindWaiter(s.waiters, s.threads[u].pid, s.nextPid, 0);
    NudgeThreads(s, s1, s2, if f.Some? then Some(s.waiters[f.value].tid) else None);
  }

  lemma NudgeThreads(s: State, s1: State, s2: State, woken: Option<nat>)
    requires Undisturbed(s, s1) && s1.threads == s.threads[s.nextTid := Thread(s.nextPid, false)] && s.nextTid !in s.threads
    requires s.nextPid in s1.processes && s.nextPid !in s.processes && s2.nextPid >= s1.nextPid
    requires forall x <- s1.processes :: x != s.nextPid ==> x in s2.processes && SameProcess(s1, s2, x)
    requires ThreadsAfter(s1, s2, s.nextTid, woken)
    ensures Undisturbed(s, s2) && ThreadsAfter(s, s2, s.nextTid, woken)
  {
    forall x <- s.processes ensures x in s2.processes && SameProcess(s, s2, x) {
      assert SameProcess(s, s1, x) && SameProcess(s1, s2, x);
    }
  }

  /** Entry `i` is for any child: nudging wakes it, after those before it. */
  lemma {:induction false} WakeAny(s: State, i: nat, u: nat) returns (ops: seq<Op>)
    requires Inv(s) && Runs(s, u) && i < |s.waiters| && s.waiters[i].parent == s.threads[u].pid && s.waiters[i].target == None
    requires s.waiters[i].tid in s.threads
    ensures Runs(From(s, ops), s.waiters[i].tid)
    decreases i
  {
    hide Inv, From, RemoveAt, Undisturbed;
    var t, n := s.waiters[i].tid, s.nextPid;
    ops := Nudge(s, u);
    Fresh(s);
    var s' := From(s, ops);
    StillRuns(s, s', u);
    var f := FindWaiter(s.waiters, s.threads[u].pid, n, 0);
    assert Wakes(s.waiters[i], s.threads[u].pid, n);
    if f.value != i {
      RemovedIs(s.waiters, f.value);
      assert s'.waiters[i - 1] == s.waiters[i];
      var more := WakeAny(s', i - 1, u);
      FromConcat(s, ops, more);
      ops := ops + more;
    }
  }

  /** No entry before `i` takes any child of `p`. */
  ghost predicate ClearBefore(ws: seq<Waiter>, i: nat, p: nat) {
    i <= |ws| && forall j :: 0 <= j < i ==> !(ws[j].parent == p && ws[j].target == None)
  }

  lemma FromNothing(s: State)
    ensures From(s, []) == s && Undisturbed(s, s)
  {
  }

  /** Nudging until nobody before entry `i` takes any child. */
  lemma {:induction false} ClearAhead(s: State, i: nat, u: nat) returns (ops: seq<Op>, k: nat)
    requires Inv(s) && Runs(s, u) && i < |s.waiters| && s.waiters[i].parent == s.threads[u].pid
    requires s.waiters[i].target.Some? && s.waiters[i].target.value < s.nextPid && !Overtaken(s.waiters, i)
    ensures var s' := From(s, ops);
      && Inv(s') && Undisturbed(s, s') && k < |s'.waiters| && s'.waiters[k] == s.waiters[i]
      && ClearBefore(s'.waiters, k, s.threads[u].pid) && !Overtaken(s'.waiters, k)
    decreases i
  {
    hide Inv, RemoveAt, From, Overtaken, Undisturbed, ThreadsAfter, FindWaiter, ClearBefore;
    var p, n := s.threads[u].pid, s.nextPid;
    if ClearBefore(s.waiters, i, p) {
      ops, k := [], i;
      FromNothing(s);
    } else {
      ops := Nudge(s, u);
      var s' := From(s, ops);
      StillRuns(s, s', u);
      var f := FindWaiter(s.waiters, p, n, 0);
      TakenAhead(s.waiters, i, p, n);
      NotOvertaken(s.waiters, f.value, i);
      var more;
      more, k := ClearAhead(s', i - 1, u);
      FromConcat(s, ops, more);
      UndisturbedTrans(s, s', From(s', more));
      ops := ops + more;
    }
  }

  lemma TakenAhead(ws: seq<Waiter>, i: nat, p: nat, c: nat)
    requires i <= |ws| && !ClearBefore(ws, i, p)
    ensures var f := FindWaiter(ws, p, c, 0); f.Some? && f.value < i
  {
    var j :| 0 <= j < i && ws[j].parent == p && ws[j].target == None;
    assert Wakes(ws[j], p, c);
  }

  lemma NotOvertaken(ws: seq<Waiter>, m: nat, i: nat)
    requires m < i < |ws| && !Overtaken(ws, i)
    ensures i - 1 < |RemoveAt(ws, m)| && RemoveAt(ws, m)[i - 1] == ws[i] && !Overtaken(RemoveAt(ws, m), i - 1)
  {
    RemovedIs(ws, m);
    var ws' := RemoveAt(ws, m);
    forall j | 0 <= j < i - 1 ensures !(ws'[j].parent == ws'[i - 1].parent && ws'[j].target == ws'[i - 1].target) {
      assert ws'[j] == ws[if j < m then j else j + 1];
    }
  }

  /** The threads of `c` all run. */
  predicate AllRun(s: State, c: nat) {
    c in s.processes && s.processes[c].threads != [] && forall x <- s.processes[c].threads :: Runs(s, x)
  }

  /** The threads of child `c` exit one after another; the last one wakes entry `k`. */
  lemma {:induction false} EndChild(s: State, c: nat, k: nat) returns (ops: seq<Op>)
    requires Inv(s) && AllRun(s, c) && k < |s.waiters| && s.processes[c].parent == Some(s.waiters[k].parent)
    requires FindWaiter(s.waiters, s.waiters[k].parent, c, 0) == Some(k) && s.waiters[k].tid in s.threads
    ensures Runs(From(s, ops), s.waiters[k].tid)
    decreases |s.processes[c].threads|
  {
    hide Inv, Step, FindWaiter, RemoveAt;
    var q := s.processes[c].threads;
    var x := q[0];
    Members(s, c);
    assert x in q && Runs(s, x);
    RunnerUnlisted(s, x);
    if |q| == 1 {
      assert q == [x];
      LastExitFacts(s, x);
      FromOne(s, Exit(x, 0));
      ops := [Exit(x, 0)];
    } else {
      OneExitFacts(s, x);
      var s' := Step(s, Exit(x, 0));
      assert AllRun(s', c) by {
        forall y <- q[1..] ensures Runs(s', y) { assert y in q && y != x && Runs(s, y) by { PopQueue(q); } }
      }
      var more := EndChild(s', c, k);
      FromCons(s, Exit(x, 0), more);
      ops := [Exit(x, 0)] + more;
    }
  }

  lemma Members(s: State, c: nat)
    requires Inv(s) && c in s.processes
    ensures NoDup(s.processes[c].threads) && forall x <- s.processes[c].threads :: x in s.threads && s.threads[x].pid == c
  {
    hide WaitersOk, LedgerOk, NoneLost;
    assert ProcessOk(s, c);
  }

  /** Other processes start until the next one will be `c`. */
  lemma {:induction false} LaunchUpTo(s: State, c: nat) returns (ops: seq<Op>)
    requires Inv(s) && c >= s.nextPid
    ensures var s' := From(s, ops); Inv(s') && Undisturbed(s, s') && s'.waiters == s.waiters && s'.nextPid == c
    decreases c - s.nextPid
  {
    hide Inv, Step;
    if c == s.nextPid {
      ops := [];
    } else {
      LaunchFacts(s);
      var s1 := Step(s, Launch);
      var more := LaunchUpTo(s1, c);
      FromCons(s, Launch, more);
      UndisturbedTrans(s, s1, From(s1, more));
      ops := [Launch] + more;
    }
  }

  /** The process of entry `i` has the thread `u`, which runs, and so do the threads of the child it
      waits for, if that is in the table. */
  ghost predicate Helped(s: State, i: nat, u: nat)
    requires i < |s.waiters|
  {
    var w := s.waiters[i];
    && Runs(s, u) && s.threads[u].pid == w.parent
    && (w.target.Some? && ChildOf(s, w.parent, w.target.value) ==> AllRun(s, w.target.value))
  }

  predicate ChildOf(s: State, p: nat, c: nat) { c in s.processes && s.processes[c].parent == Some(p) }

  /** The threads of child `c` run, and its end will wake entry `i`. */
  ghost predicate Ready(s: State, i: nat, c: nat)
    requires i < |s.waiters|
  {
    var p := s.waiters[i].parent;
    ChildOf(s, p, c) && AllRun(s, c) && FindWaiter(s.waiters, p, c, 0) == Some(i)
  }

  /** The child waited for is there: it is ended once nobody is in the way. */
  lemma WakeForChild(s: State, i: nat, u: nat) returns (ops: seq<Op>)
    requires Inv(s) && i < |s.waiters| && Helped(s, i, u) && s.waiters[i].target.Some? && !Overtaken(s.waiters, i)
    requires var c := s.waiters[i].target.value; c in s.processes && s.processes[c].parent == Some(s.waiters[i].parent)
    ensures Runs(From(s, ops), s.waiters[i].tid)
  {
    hide Inv, Step, Overtaken;
    var w := s.waiters[i];
    var c := w.target.value;
    PidKnown(s, c);
    var k;
    ops, k := ClearAhead(s, i, u);
    var s' := From(s, ops);
    assert SameProcess(s, s', c);
    FirstMatch(s'.waiters, k, c);
    Listed(s', k);
    var more := EndChild(s', c, k);
    FromConcat(s, ops, more);
    ops := ops + more;
  }

  lemma PidKnown(s: State, c: nat)
    requires Inv(s) && c in s.processes
    ensures c < s.nextPid
  {
    hide WaitersOk, LedgerOk, NoneLost;
    assert ProcessOk(s, c);
  }

  lemma Listed(s: State, k: nat)
    requires Inv(s) && k < |s.waiters|
    ensures s.waiters[k].tid in s.threads
  {
    hide TablesOk, LedgerOk, NoneLost;
    assert WaiterOk(s.threads, s.waiters[k]);
  }

  lemma FirstMatch(ws: seq<Waiter>, k: nat, c: nat)
    requires k < |ws| && ws[k].target == Some(c) && ClearBefore(ws, k, ws[k].parent) && !Overtaken(ws, k)
    ensures FindWaiter(ws, ws[k].parent, c, 0) == Some(k)
  {
    forall j | 0 <= j < k ensures !Wakes(ws[j], ws[k].parent, c) { }
    assert Wakes(ws[k], ws[k].parent, c);
  }

  /** The child waited for does not exist yet: it is forked in time. */
  lemma WakeForFuture(s: State, i: nat, u: nat) returns (ops: seq<Op>)
    requires Inv(s) && i < |s.waiters| && Helped(s, i, u) && s.waiters[i].target.Some? && !Overtaken(s.waiters, i)
    requires s.waiters[i].target.value >= s.nextPid
    ensures Runs(From(s, ops), s.waiters[i].tid)
  {
    hide Inv, Step, Overtaken, From, Undisturbed;
    var c := s.waiters[i].target.value;
    ops := LaunchUpTo(s, c);
    var s1 := From(s, ops);
    StillRuns(s, s1, u);
    ForkFacts(s1, u);
    var s2 := Step(s1, Fork(u, true, true));
    StillRuns(s1, s2, u);
    assert AllRun(s2, c);
    var more := WakeForChild(s2, i, u);
    FromCons(s1, Fork(u, true, true), more);
    FromConcat(s, ops, [Fork(u, true, true)] + more);
    ops := ops + ([Fork(u, true, true)] + more);
  }

  lemma StillRuns(s: State, s': State, u: nat)
    requires Undisturbed(s, s') && Runs(s, u)
    ensures Runs(s', u) && s'.threads[u].pid == s.threads[u].pid && s'.nextPid >= s.nextPid
  {
  }

  /** Some continuation wakes thread `t`. */
  ghost predicate CanWake(s: State, t: nat) { exists ops: seq<Op> :: Runs(From(s, ops), t) }

  lemma ReadyWakes(s: State, i: nat, c: nat)
    requires Inv(s) && i < |s.waiters| && Ready(s, i, c)
    ensures CanWake(s, s.waiters[i].tid) && !Doomed(s, i)
  {
    hide Inv, From, AllRun;
    Listed(s, i);
    var ops := EndChild(s, c, i);
    assert Runs(From(s, ops), s.waiters[i].tid);
  }

  /** Exactly when a blocked waiter can still be woken: if a child whose threads run will wake it, or if
      its process has a thread that runs and so do the threads of the child it waits for, then it
      can be woken if and only if it is not doomed. */
  lemma WakesExactly(s: State, i: nat)
    requires Inv(s) && i < |s.waiters|
    requires (exists c: nat :: Ready(s, i, c)) || (exists u: nat :: Helped(s, i, u))
    ensures CanWake(s, s.waiters[i].tid) <==> !Doomed(s, i)
  {
    hide Inv, From, Overtaken, AllRun, Ready, Helped, CanWake;
    if c: nat :| Ready(s, i, c) {
      ReadyWakes(s, i, c);
    } else {
      var u: nat :| Helped(s, i, u);
      if Doomed(s, i) { DoomedNeverWakes(s, i); } else { HelpedWakes(s, i, u); }
    }
  }

  lemma DoomedNeverWakes(s: State, i: nat)
    requires Inv(s) && i < |s.waiters| && Doomed(s, i)
    ensures !CanWake(s, s.waiters[i].tid)
  {
    hide Inv, From, Doomed;
    var w := s.waiters[i];
    assert Stuck(s, w);
    forall ops: seq<Op> ensures !Runs(From(s, ops), w.tid) { DoomedForever(s, ops, w); }
  }

  lemma HelpedWakes(s: State, i: nat, u: nat)
    requires Inv(s) && i < |s.waiters| && Helped(s, i, u) && !Doomed(s, i)
    ensures CanWake(s, s.waiters[i].tid)
  {
    hide Inv, From, Overtaken, AllRun;
    var w := s.waiters[i];
    var ops;
    Listed(s, i);
    if w.target.None? {
      ops := WakeAny(s, i, u);
    } else if w.target.value >= s.nextPid {
      ops := WakeForFuture(s, i, u);
    } else {
      ops := WakeForChild(s, i, u);
    }
    assert Runs(From(s, ops), w.tid);
  }

  // ---------------------------------------------------------------- a run that loses a wake-up

  /** Two threads of process 1, and its child 2 with thread 3. */
  const FAMILY: State := State(
    map[1 := Process([1, 2], None, [2]), 2 := Process([3], Some(1), [])], 3,
    map[1 := Thread(1, false), 2 := Thread(1, false), 3 := Thread(2, false)], 4, [], [], [], [], [], map[2 := 1])

  /** Both wait, thread 1 for any child and thread 2 for child 2; the child exits and thread 1 reaps it. */
  const REAPED: State := State(
    map[1 := Process([1, 2], None, [])], 3, map[1 := Thread(1, false), 2 := Thread(1, true)], 4,
    [], [Waiter(1, 2, Some(2))], [Zombie(1, 2, 7)], [Exited(3, 2, 7)], [Reap(Zombie(1, 2, 7), 1, 1)], map[2 := 1])

  lemma FamilyStarts()
    ensures From(START, [Launch] + ([Clone(1)] + [Fork(1, true, true)])) == FAMILY
  {
    hide Step;
    var s1, s2 := Step(START, Launch), Step(Step(START, Launch), Clone(1));
    FirstThread();
    SecondThread(s1);
    TheChild(s2);
    FromCons(START, Launch, [Clone(1)] + [Fork(1, true, true)]);
    FromCons(s1, Clone(1), [Fork(1, true, true)]);
    FromOne(s2, Fork(1, true, true));
  }

  const ALONE: State := START.(processes := map[1 := Process([1], None, [])], nextPid := 2, threads := map[1 := Thread(1, false)], nextTid := 2)

  const PAIR: State := ALONE.(processes := map[1 := Process([1, 2], None, [])],
                              threads := map[1 := Thread(1, false), 2 := Thread(1, false)], nextTid := 3)

  lemma FirstThread()
    ensures Step(START, Launch) == ALONE
  {
    var none: seq<nat> := [];
    assert none + [1] == [1];
    assert Step(START, Launch).processes == ALONE.processes;
    assert Step(START, Launch).threads == ALONE.threads;
  }

  lemma SecondThread(s: State)
    requires s == ALONE
    ensures Step(s, Clone(1)) == PAIR
  {
    assert [1] + [2] == [1, 2];
    assert Step(s, Clone(1)).processes == PAIR.processes;
    assert Step(s, Clone(1)).threads == PAIR.threads;
  }

  lemma TheChild(s: State)
    requires s == PAIR
    ensures Step(s, Fork(1, true, true)) == FAMILY
  {
    var none: seq<nat> := [];
    assert none + [2] == [2] && none + [3] == [3];
    assert Step(s, Fork(1, true, true)).processes == FAMILY.processes;
    assert Step(s, Fork(1, true, true)).threads == FAMILY.threads;
  }

  lemma BothWait()
    ensures From(FAMILY, [Wait(1, 0)] + ([Wait(2, 2)] + ([Exit(3, 7)] + [Wait(1, 0)]))) == REAPED
  {
    var s1 := Step(FAMILY, Wait(1, 0));
    assert s1 == FAMILY.(waiters := [Waiter(1, 1, None)], threads := FAMILY.threads[1 := Thread(1, true)]);
    var s2 := Step(s1, Wait(2, 2));
    SecondWaits(s1);
    var s3 := Step(s2, Exit(3, 7));
    ChildExits(s2);
    assert Step(s3, Wait(1, 0)) == REAPED;
    FromCons(FAMILY, Wait(1, 0), [Wait(2, 2)] + ([Exit(3, 7)] + [Wait(1, 0)]));
    FromCons(s1, Wait(2, 2), [Exit(3, 7)] + [Wait(1, 0)]);
    FromCons(s2, Exit(3, 7), [Wait(1, 0)]);
    FromOne(s3, Wait(1, 0));
  }

  lemma SecondWaits(s: State)
    requires s == FAMILY.(waiters := [Waiter(1, 1, None)], threads := FAMILY.threads[1 := Thread(1, true)])
    ensures Step(s, Wait(2, 2)) ==
      s.(waiters := [Waiter(1, 1, None), Waiter(1, 2, Some(2))], threads := s.threads[2 := Thread(1, true)])
  {
    DropNobody(s.waiters, 2);
  }

  lemma ChildExits(s: State)
    requires s == FAMILY.(waiters := [Waiter(1, 1, None), Waiter(1, 2, Some(2))],
                          threads := FAMILY.threads[1 := Thread(1, true)][2 := Thread(1, true)])
    ensures Step(s, Exit(3, 7)) == REAPED.(zombies := [Zombie(1, 2, 7)], reaps := [])
  {
    hide Without, RecordExit;
    assert Without([3], 3) == [] by { WithoutFirst([3]); }
    assert s.threads - {3} == map[1 := Thread(1, true), 2 := Thread(1, true)];
    assert s.processes - {2} == map[1 := Process([1, 2], None, [2])];
    var s1 := s.(threads := map[1 := Thread(1, true), 2 := Thread(1, true)], exits := [Exited(3, 2, 7)],
                 processes := map[1 := Process([1, 2], None, [2])]);
    var none: seq<Exited> := [];
    assert none + [Exited(3, 2, 7)] == [Exited(3, 2, 7)];
    assert Step(s, Exit(3, 7)) == RecordExit(s1, 1, 2, 7);
    ExitRecorded(s1);
  }

  lemma ExitRecorded(s: State)
    requires s == State(map[1 := Process([1, 2], None, [2])], 3, map[1 := Thread(1, true), 2 := Thread(1, true)], 4,
                        [], [Waiter(1, 1, None), Waiter(1, 2, Some(2))], [], [Exited(3, 2, 7)], [], map[2 := 1])
    ensures RecordExit(s, 1, 2, 7) == REAPED.(zombies := [Zombie(1, 2, 7)], reaps := [])
  {
    hide Without, FindWaiter, RemoveAt;
    assert Without([2], 2) == [] by { WithoutFirst([2]); }
    FirstOfTwo(s.waiters);
    var none: seq<Zombie> := [];
    assert none + [Zombie(1, 2, 7)] == [Zombie(1, 2, 7)];
    assert s.processes[1 := Process([1, 2], None, [])] == REAPED.processes;
    assert Wake(s.threads, 1) == REAPED.threads;
  }

  lemma FirstOfTwo(ws: seq<Waiter>)
    requires ws == [Waiter(1, 1, None), Waiter(1, 2, Some(2))]
    ensures FindWaiter(ws, 1, 2, 0) == Some(0) && RemoveAt(ws, 0) == [Waiter(1, 2, Some(2))]
  {
  }

  const RUN: seq<Op> := [Launch, Clone(1), Fork(1, true, true), Wait(1, 0), Wait(2, 2), Exit(3, 7), Wait(1, 0)]

  lemma ReapedOk()
    ensures After(RUN) == REAPED && Inv(REAPED)
  {
    hide From, Inv, After;
    FamilyStarts();
    BothWait();
    var a, b := [Launch] + ([Clone(1)] + [Fork(1, true, true)]), [Wait(1, 0)] + ([Wait(2, 2)] + ([Exit(3, 7)] + [Wait(1, 0)]));
    assert RUN == a + b;
    FromConcat(START, a, b);
    FromStart(RUN);
  }

  /** The run: the waiter for any child was first and got the only wake-up, so the thread that waits
      for this very child stays blocked for ever. */
  lemma LostWakeUp(ops: seq<Op>)
    ensures After(RUN) == REAPED && Runs(REAPED, 1) && Doomed(REAPED, 0)
    ensures var s := From(REAPED, ops); 2 in s.threads && s.threads[2].blocked
  {
    hide From, Inv, After;
    ReapedOk();
    assert Stuck(REAPED, Waiter(1, 2, Some(2))) by { assert REAPED.waiters[0] == Waiter(1, 2, Some(2)) && Doomed(REAPED, 0); }
    DoomedForever(REAPED, ops, Waiter(1, 2, Some(2)));
  }
}
