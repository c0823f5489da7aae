/** Processes of the small kernel: the round-robin scheduler (os/sched.c), the system calls that are
    left to a worker process (os/sys.c:89-138), and the worker's queue (os/kernel_worker.c). */
module Kernel {

  const MAXPROC: nat := 15
  const MAX_QUEUE_SIZE: nat := 15

  datatype ProcState = None | Run | Wait | Zombie | KWorker | New

  datatype Regs = Regs(ap: int, bp: int, sp: int, pc: int)

  datatype Process = Process(pid: nat, state: ProcState, regs: Regs, memBank: nat, retval: int)

  datatype Kind = Fork | Execve | Exit | Waitpid

  datatype Task = NoTask | Task(kind: Kind, callerPid: nat)

  /** An interrupt: of the timer, or by a process that asks for something. */
  datatype Event = Tick(fr: Regs) | Ask(kind: Kind, fr: Regs)

  predicate Runnable(p: Process) {
    p.state == Run || p.state == New
  }

  // ----- round robin -----

  /** The first runnable slot from i on, going round. */
  function Search(ps: seq<Process>, i: nat, steps: nat): (r: nat)
    requires |ps| == MAXPROC && i < MAXPROC
    ensures r < MAXPROC
    decreases steps
  {
    if Runnable(ps[i]) || steps == 0 then i else Search(ps, Succ(i), steps - 1)
  }

  function Succ(i: nat): (r: nat)
    ensures r < MAXPROC
  {
    if i + 1 >= MAXPROC then 0 else i + 1
  }

  /** The slot that runs after `current`; MAXPROC stands for no slot yet. */
  function NextTask(ps: seq<Process>, current: nat): (r: nat)
    requires |ps| == MAXPROC && current <= MAXPROC
    ensures r < MAXPROC
  {
    Search(ps, Succ(current), MAXPROC - 1)
  }

  /** How many slots after `current`, going round, slot i comes. */
  function Distance(current: nat, i: nat): (d: nat)
    requires current <= MAXPROC && i < MAXPROC
    ensures 1 <= d <= MAXPROC
  {
    if current == MAXPROC then i + 1 else if i > current then i - current else i + MAXPROC - current
  }

  lemma {:induction false} SearchFinds(ps: seq<Process>, i: nat, steps: nat, k: nat)
    requires |ps| == MAXPROC && i < MAXPROC && k < MAXPROC && Runnable(ps[k])
    requires (if k >= i then k - i else k + MAXPROC - i) <= steps
    ensures var r := Search(ps, i, steps);
            Runnable(ps[r]) && (if r >= i then r - i else r + MAXPROC - i) <= (if k >= i then k - i else k + MAXPROC - i)
    decreases steps
  {
    if !Runnable(ps[i]) && steps > 0 {
      SearchFinds(ps, Succ(i), steps - 1, k);
    }
  }

  /** The slot chosen is runnable, and no runnable slot lies between. */
  lemma NextIsNearest(ps: seq<Process>, current: nat, k: nat)
    requires |ps| == MAXPROC && current <= MAXPROC && k < MAXPROC && Runnable(ps[k])
    ensures Runnable(ps[NextTask(ps, current)])
    ensures Distance(current, NextTask(ps, current)) <= Distance(current, k)
  {
    SearchFinds(ps, Succ(current), MAXPROC - 1, k);
  }

  /** A slot that is passed over comes closer with every switch. */
  lemma ComesCloser(ps: seq<Process>, current: nat, k: nat)
    requires |ps| == MAXPROC && current <= MAXPROC && k < MAXPROC && Runnable(ps[k])
    ensures NextTask(ps, current) == k || Distance(NextTask(ps, current), k) < Distance(current, k)
  {
    NextIsNearest(ps, current, k);
    hide NextTask;
  }

  /** Successive timer interrupts: the process table before each, and the slot running after each. */
  ghost predicate Schedule(tables: seq<seq<Process>>, current: seq<nat>) {
    && |current| == |tables| + 1 && current[0] <= MAXPROC
    && (forall t | 0 <= t < |tables| :: |tables[t]| == MAXPROC)
    && (forall t | 0 <= t < |tables| :: current[t] <= MAXPROC)
    && (forall t, u | 0 <= t < |tables| && u == t + 1 :: current[u] == NextTask(tables[t], current[t]))
  }

  /** Bounded waiting: a slot that is runnable at each of MAXPROC successive interrupts runs after
      one of them, whatever happens to the other processes in between. */
  lemma BoundedWaiting(tables: seq<seq<Process>>, current: seq<nat>, k: nat)
    requires Schedule(tables, current) && |tables| == MAXPROC && k < MAXPROC
    requires forall t | 0 <= t < |tables| :: Runnable(tables[t][k])
    ensures exists t | 0 < t <= MAXPROC :: current[t] == k
  {
    if forall t | 0 < t <= MAXPROC :: current[t] != k {
      WaitsAtMost(tables, current, k, MAXPROC);
      assert false;
    }
  }

  lemma {:induction false} WaitsAtMost(tables: seq<seq<Process>>, current: seq<nat>, k: nat, n: nat)
    requires Schedule(tables, current) && n <= |tables| && k < MAXPROC
    requires forall t | 0 <= t < |tables| :: Runnable(tables[t][k])
    requires forall t | 0 < t <= n :: current[t] != k
    ensures current[n] <= MAXPROC && Distance(current[n], k) + n <= Distance(current[0], k)
    decreases n
  {
    if n > 0 {
      WaitsAtMost(tables, current, k, n - 1);
      hide Distance, NextTask;
      ComesCloser(tables[n - 1], current[n - 1], k);
    }
  }

  // ----- the process table -----

  /** Process ids are given once; slot 0 is the worker. */
  ghost predicate Pids(ps: seq<Process>, nextPid: nat) {
    && |ps| == MAXPROC
    && (forall i | 0 <= i < MAXPROC :: ps[i].pid <= nextPid)
    && (forall i, j | 0 <= i < j < MAXPROC && ps[i].pid == ps[j].pid :: ps[i].pid == 0)
    && (forall i | 0 < i < MAXPROC && ps[i].state != None :: ps[i].pid > 0)
    && ps[0].pid == 0 && Runnable(ps[0])
  }

  ghost predicate Waits(ps: seq<Process>, pid: nat) {
    exists i | 0 < i < |ps| :: ps[i].pid == pid && ps[i].state == KWorker
  }

  ghost predicate Queued(q: seq<Task>, pid: nat) {
    exists j | 0 <= j < |q| :: q[j].Task? && q[j].callerPid == pid
  }

  /** The processes waiting for the worker are exactly the callers of the queued tasks, one each. */
  ghost predicate Paired(ps: seq<Process>, q: seq<Task>) {
    && |q| == MAX_QUEUE_SIZE
    && (forall j | 0 <= j < |q| && q[j].Task? :: Waits(ps, q[j].callerPid))
    && (forall i | 0 < i < |ps| && ps[i].state == KWorker :: Queued(q, ps[i].pid))
    && (forall j, k | 0 <= j < k < |q| && q[j].Task? && q[k].Task? :: q[j].callerPid != q[k].callerPid)
  }

  lemma {:induction false} DistinctBound(s: seq<nat>, n: nat)
    requires (forall i | 0 <= i < |s| :: s[i] < n) && (forall i, j | 0 <= i < j < |s| :: s[i] != s[j])
    ensures |s| <= n
    decreases n
  {
    var first := if |s| > 0 then s[0] else 0;
    if n == 0 {
    } else if k :| 0 <= k < |s| && s[k] == n - 1 {
      var t := s[..k] + s[k + 1..];
      assert forall i | 0 <= i < |t| :: t[i] == if i < k then s[i] else s[i + 1];
      DistinctBound(t, n - 1);
    } else {
      DistinctBound(s, n - 1);
    }
  }

  /** There is always room in the queue for a running process: fewer tasks than processes. */
  lemma QueueHasRoom(ps: seq<Process>, q: seq<Task>, nextPid: nat)
    requires Pids(ps, nextPid) && Paired(ps, q)
    ensures exists j | 0 <= j < |q| :: q[j] == NoTask
  {
    if forall j | 0 <= j < |q| :: q[j] != NoTask {
      var slots := seq(|q|, j requires 0 <= j < |q| => CallerSlot(ps, q[j].callerPid));
      forall i, j | 0 <= i < j < |slots| ensures slots[i] != slots[j] {
        assert Waits(ps, q[i].callerPid) && Waits(ps, q[j].callerPid);
        CallerSlotIs(ps, q[i].callerPid);
        CallerSlotIs(ps, q[j].callerPid);
      }
      forall j | 0 <= j < |q| ensures 0 < slots[j] < MAXPROC {
        assert Waits(ps, q[j].callerPid);
        CallerSlotIs(ps, q[j].callerPid);
      }
      SlotsBound(slots);
    }
  }

  /** Different slots behind the first are fewer than MAXPROC. */
  lemma SlotsBound(slots: seq<nat>)
    requires forall j | 0 <= j < |slots| :: 0 < slots[j] < MAXPROC
    requires forall i, j | 0 <= i < j < |slots| :: slots[i] != slots[j]
    ensures |slots| < MAXPROC
  {
    var shifted: seq<nat> := seq(|slots|, j requires 0 <= j < |slots| => slots[j] - 1);
    assert forall i, j | 0 <= i < j < |shifted| :: shifted[i] != shifted[j];
    DistinctBound(shifted, MAXPROC - 1);
  }

  /** The first waiting slot with the pid. */
  function CallerSlot(ps: seq<Process>, pid: nat): nat {
    if ps == [] then 0
    else if ps[|ps| - 1].pid == pid && ps[|ps| - 1].state == KWorker then |ps| - 1
    else CallerSlot(ps[..|ps| - 1], pid)
  }

  lemma {:induction false} CallerSlotIs(ps: seq<Process>, pid: nat)
    requires Waits(ps, pid)
    ensures var i := CallerSlot(ps, pid); 0 < i < |ps| && ps[i].pid == pid && ps[i].state == KWorker
    decreases |ps|
  {
    var k := |ps| - 1;
    if !(ps[k].pid == pid && ps[k].state == KWorker) {
      var i :| 0 < i < |ps| && ps[i].pid == pid && ps[i].state == KWorker;
      assert ps[..k][i] == ps[i];
      CallerSlotIs(ps[..k], pid);
    } else {
      var i :| 0 < i < |ps| && ps[i].pid == pid && ps[i].state == KWorker;
    }
  }

  // ----- steps on the tables -----

  /** A process asks the worker for something. */
  lemma AskKeepsPairs(ps: seq<Process>, q: seq<Task>, nextPid: nat, c: nat, j: nat, kind: Kind, fr: Regs)
    requires Pids(ps, nextPid) && Paired(ps, q) && 0 < c < MAXPROC && ps[c].state == Run && j < |q| && q[j] == NoTask
    ensures var ps1 := ps[c := ps[c].(regs := fr, state := KWorker)];
            Pids(ps1, nextPid) && Paired(ps1, q[j := Task(kind, ps[c].pid)])
  {
    var ps1, q1 := ps[c := ps[c].(regs := fr, state := KWorker)], q[j := Task(kind, ps[c].pid)];
    assert !Queued(q, ps[c].pid) by {
      NotQueued(ps, q, nextPid, c);
    }
    forall k | 0 <= k < |q1| && q1[k].Task? ensures Waits(ps1, q1[k].callerPid) {
      if k == j {
        assert ps1[c].pid == ps[c].pid && ps1[c].state == KWorker;
      } else {
        assert Waits(ps, q[k].callerPid);
        var i :| 0 < i < |ps| && ps[i].pid == q[k].callerPid && ps[i].state == KWorker;
        assert ps1[i] == ps[i];
      }
    }
    forall i | 0 < i < |ps1| && ps1[i].state == KWorker ensures Queued(q1, ps1[i].pid) {
      if i == c {
        assert q1[j].Task? && q1[j].callerPid == ps[c].pid;
      } else {
        assert Queued(q, ps[i].pid);
        var k :| 0 <= k < |q| && q[k].Task? && q[k].callerPid == ps[i].pid;
        assert q1[k] == q[k];
      }
    }
    forall a, b | 0 <= a < b < |q1| && q1[a].Task? && q1[b].Task? ensures q1[a].callerPid != q1[b].callerPid {
      if a == j {
        assert q1[b] == q[b] && q[b].callerPid != ps[c].pid;
      } else if b == j {
        assert q1[a] == q[a] && q[a].callerPid != ps[c].pid;
      }
    }
  }

  lemma NotQueued(ps: seq<Process>, q: seq<Task>, nextPid: nat, c: nat)
    requires Pids(ps, nextPid) && Paired(ps, q) && 0 < c < MAXPROC && ps[c].state != KWorker && ps[c].state != None
    ensures !Queued(q, ps[c].pid)
  {
    forall j | 0 <= j < |q| && q[j].Task? ensures q[j].callerPid != ps[c].pid {
      assert Waits(ps, q[j].callerPid);
      var i :| 0 < i < |ps| && ps[i].pid == q[j].callerPid && ps[i].state == KWorker;
      assert i != c && ps[i].pid > 0;
      assert i < c || c < i;
    }
  }

  /** The caller's request is done: it leaves the waiting state together with its task. */
  lemma DoneKeepsPairs(ps: seq<Process>, q: seq<Task>, nextPid: nat, c: nat, j: nat, p: Process)
    requires Pids(ps, nextPid) && Paired(ps, q) && 0 < c < MAXPROC && j < |q|
    requires q[j].Task? && q[j].callerPid == ps[c].pid && ps[c].state == KWorker
    requires p.pid == ps[c].pid && p.state != KWorker && p.state != None
    ensures Pids(ps[c := p], nextPid) && Paired(ps[c := p], q[j := NoTask])
  {
    var ps1, q1 := ps[c := p], q[j := NoTask];
    forall k | 0 <= k < |q1| && q1[k].Task? ensures Waits(ps1, q1[k].callerPid) {
      assert q1[k] == q[k] && k != j;
      assert k < j || j < k;
      assert Waits(ps, q[k].callerPid);
      var i :| 0 < i < |ps| && ps[i].pid == q[k].callerPid && ps[i].state == KWorker;
      assert i != c && ps1[i] == ps[i];
    }
    forall i | 0 < i < |ps1| && ps1[i].state == KWorker ensures Queued(q1, ps1[i].pid) {
      assert i != c && ps1[i] == ps[i] && Queued(q, ps[i].pid);
      var k :| 0 <= k < |q| && q[k].Task? && q[k].callerPid == ps[i].pid;
      assert i < c || c < i;
      assert k != j && q1[k] == q[k];
    }
  }

  /** A change to a process that does not wait, before or after, leaves the pairs alone. */
  lemma OtherKeepsPairs(ps: seq<Process>, q: seq<Task>, c: nat, p: Process)
    requires Paired(ps, q) && 0 < c < |ps| && ps[c].state != KWorker && p.state != KWorker
    ensures Paired(ps[c := p], q)
  {
    var ps1 := ps[c := p];
    forall k | 0 <= k < |q| && q[k].Task? ensures Waits(ps1, q[k].callerPid) {
      assert Waits(ps, q[k].callerPid);
      var i :| 0 < i < |ps| && ps[i].pid == q[k].callerPid && ps[i].state == KWorker;
      assert i != c && ps1[i] == ps[i];
    }
    forall i | 0 < i < |ps1| && ps1[i].state == KWorker ensures Queued(q, ps1[i].pid) {
      assert i != c && ps1[i] == ps[i];
    }
  }

  /** A new process id goes to a free slot. */
  lemma AddKeepsPids(ps: seq<Process>, nextPid: nat, c: nat, p: Process)
    requires Pids(ps, nextPid) && 0 < c < MAXPROC && ps[c].state == None && p.pid == nextPid + 1
    ensures Pids(ps[c := p], nextPid + 1)
  {
  }

  // ----- the kernel -----

  class Kernel {
    const procs: array<Process>
    const kernelTaskQueue: array<Task>
    var currentTask: nat
    var nextPid: nat
    var ticksToSwitch: nat
    /** The registers each process had when it last left the processor. */
    ghost var lastLeft: seq<Regs>

    ghost predicate Valid()
      reads this, procs, kernelTaskQueue
    {
      && procs.Length == MAXPROC && kernelTaskQueue.Length == MAX_QUEUE_SIZE
      && currentTask <= MAXPROC && |lastLeft| == MAXPROC
      && Pids(procs[..], nextPid) && Paired(procs[..], kernelTaskQueue[..])
      && (currentTask < MAXPROC ==> procs[currentTask].state == Run || procs[currentTask].state == KWorker)
      && (forall i | 0 <= i < MAXPROC && i != currentTask && Runnable(procs[i]) :: procs[i].regs == lastLeft[i])
      && (forall i | 0 <= i < MAXPROC && procs[i].state == KWorker :: procs[i].regs == lastLeft[i])
    }

    /** `sched_init` and `kernel_worker_init`: an empty queue, and the worker in slot 0. */
    constructor (worker: Regs)
      ensures Valid() && fresh(procs) && fresh(kernelTaskQueue)
      ensures currentTask == MAXPROC && procs[0] == Process(0, New, worker, 0, 0)
      ensures forall i | 0 < i < MAXPROC :: procs[i].state == None
      ensures forall j | 0 <= j < MAX_QUEUE_SIZE :: kernelTaskQueue[j] == NoTask
    {
      currentTask, nextPid, ticksToSwitch := MAXPROC, 0, 0;
      lastLeft := seq(MAXPROC, i => worker);
      procs := new Process[MAXPROC](i => Process(0, if i == 0 then New else None, worker, 0, 0));
      kernelTaskQueue := new Task[MAX_QUEUE_SIZE](i => NoTask);
    }

    method FindProcByPid(pid: nat) returns (found: bool, i: nat)
      requires procs.Length == MAXPROC
      ensures found <==> exists k | 0 <= k < MAXPROC :: procs[k].pid == pid
      ensures found ==> i < MAXPROC && procs[i].pid == pid && forall k | 0 <= k < i :: procs[k].pid != pid
    {
      i := 0;
      while i < MAXPROC
        invariant i <= MAXPROC && forall k | 0 <= k < i :: procs[k].pid != pid
      {
        if procs[i].pid == pid {
          return true, i;
        }
        i := i + 1;
      }
      found := false;
    }

    /** `timer_interrupt`: the search, the switch, and the registers to continue with. */
    method TimerInterrupt(fr: Regs) returns (next: Regs)
      requires Valid()
      modifies this`currentTask, this`ticksToSwitch, this`lastLeft, procs
      ensures Valid()
      ensures currentTask == NextTask(old(procs[..]), old(currentTask))
      ensures currentTask == old(currentTask) ==> next == fr && procs[..] == old(procs[..])
      ensures currentTask != old(currentTask) ==> next == old(lastLeft)[currentTask] && ticksToSwitch == 10
      ensures old(currentTask) < MAXPROC && old(procs[currentTask].state) == Run && currentTask != old(currentTask) ==>
                procs[old(currentTask)].regs == fr == lastLeft[old(currentTask)]
      ensures forall i | 0 <= i < MAXPROC && i != old(currentTask) :: lastLeft[i] == old(lastLeft)[i]
      ensures forall i | 0 <= i < MAXPROC ::
                procs[i] == old(procs[i]).(
                  state := if i == currentTask && old(procs[i].state) == New then Run else old(procs[i].state),
                  regs := if i == old(currentTask) != currentTask && old(procs[i].state) == Run then fr else old(procs[i].regs))
    {
      var nextTask := FindNext();
      if nextTask == currentTask && procs[currentTask].state == Run {
        return fr;
      }
      next := Switch(nextTask, fr);
    }

    /** The search loop; it comes to an end because the worker can always run. */
    method FindNext() returns (nextTask: nat)
      requires Valid()
      ensures nextTask == NextTask(procs[..], currentTask) && Runnable(procs[nextTask])
    {
      hide Paired, NextTask;
      nextTask := currentTask + 1;
      while nextTask != currentTask
        invariant currentTask < nextTask <= MAXPROC + 1
        invariant forall k | currentTask < k < nextTask && k < MAXPROC :: !Runnable(procs[k])
        decreases MAXPROC + 1 - nextTask
      {
        if nextTask >= MAXPROC {
          nextTask := 0;
        }
        if procs[nextTask].state == Run {
          break;
        }
        if procs[nextTask].state == New {
          break;
        }
        nextTask := nextTask + 1;
      }
      NearestIsNext(procs[..], currentTask, nextTask);
    }

    /** The part of `timer_interrupt` behind the search. */
    method Switch(nextTask: nat, fr: Regs) returns (next: Regs)
      requires Valid() && nextTask == NextTask(procs[..], currentTask) && Runnable(procs[nextTask])
      requires nextTask != currentTask
      modifies this`currentTask, this`ticksToSwitch, this`lastLeft, procs
      ensures Valid() && currentTask == nextTask && next == old(lastLeft)[nextTask] && ticksToSwitch == 10
      ensures old(currentTask) < MAXPROC && old(procs[currentTask].state) == Run ==>
                procs[old(currentTask)].regs == fr == lastLeft[old(currentTask)]
      ensures forall i | 0 <= i < MAXPROC && i != old(currentTask) :: lastLeft[i] == old(lastLeft)[i]
      ensures forall i | 0 <= i < MAXPROC ::
                procs[i] == old(procs[i]).(
                  state := if i == currentTask && old(procs[i].state) == New then Run else old(procs[i].state),
                  regs := if i == old(currentTask) && old(procs[i].state) == Run then fr else old(procs[i].regs))
    {
      hide Paired, NextTask, Pids;
      ghost var ps, cur := procs[..], currentTask;
      if currentTask < MAXPROC {
        if procs[currentTask].state == Run {
          procs[currentTask] := procs[currentTask].(regs := fr);
          lastLeft := lastLeft[currentTask := fr];
        }
      }
      ghost var ps1 := procs[..];
      if procs[nextTask].state == New {
        procs[nextTask] := procs[nextTask].(state := Run);
      }
      next := procs[nextTask].regs;
      SwitchKeeps(ps, ps1, procs[..], kernelTaskQueue[..], nextPid, cur, nextTask, fr);
      currentTask := nextTask;
      ticksToSwitch := 10;
    }

    /** A free queue slot takes the task; without one the task would be dropped. */
    method AddKernelTask(kind: Kind, callerPid: nat) returns (ghost j: nat)
      requires kernelTaskQueue.Length == MAX_QUEUE_SIZE
      modifies kernelTaskQueue
      ensures j <= MAX_QUEUE_SIZE && forall k | 0 <= k < j :: old(kernelTaskQueue[..])[k] != NoTask
      ensures j < MAX_QUEUE_SIZE ==> old(kernelTaskQueue[..])[j] == NoTask
                                     && kernelTaskQueue[..] == old(kernelTaskQueue[..])[j := Task(kind, callerPid)]
      ensures j == MAX_QUEUE_SIZE ==> kernelTaskQueue[..] == old(kernelTaskQueue[..])
    {
      var i := 0;
      while i < MAX_QUEUE_SIZE
        invariant i <= MAX_QUEUE_SIZE && forall k | 0 <= k < i :: kernelTaskQueue[k] != NoTask
      {
        if kernelTaskQueue[i] == NoTask {
          break;
        }
        i := i + 1;
      }
      j := i;
      if i == MAX_QUEUE_SIZE {
        return;
      }
      kernelTaskQueue[i] := Task(kind, callerPid);
    }

    /** The fork, execve, waitpid and exit branches of `system_interrupt`: the request is queued, never
        dropped, and the caller leaves the processor until the worker has served it. */
    method SystemInterrupt(kind: Kind, fr: Regs)
      requires Valid() && 0 < currentTask < MAXPROC && procs[currentTask].state == Run
      modifies this`ticksToSwitch, this`lastLeft, procs, kernelTaskQueue
      ensures Valid() && ticksToSwitch == 1
      ensures procs[..] == old(procs[..])[currentTask := old(procs[currentTask]).(regs := fr, state := KWorker)]
      ensures lastLeft == old(lastLeft)[currentTask := fr]
      ensures exists j | 0 <= j < MAX_QUEUE_SIZE ::
                && old(kernelTaskQueue[..])[j] == NoTask
                && kernelTaskQueue[..] == old(kernelTaskQueue[..])[j := Task(kind, procs[currentTask].pid)]
    {
      ghost var ps, q := procs[..], kernelTaskQueue[..];
      QueueHasRoom(ps, q, nextPid);
      hide Paired, Pids;
      ghost var j := AddKernelTask(kind, procs[currentTask].pid);
      AskKeepsPairs(ps, q, nextPid, currentTask, j, kind, fr);
      procs[currentTask] := procs[currentTask].(regs := fr);
      procs[currentTask] := procs[currentTask].(state := KWorker);
      lastLeft := lastLeft[currentTask := fr];
      assert procs[..] == ps[currentTask := ps[currentTask].(regs := fr, state := KWorker)];
      ticksToSwitch := 1;
    }

    /** `sched_genPid` and `sched_add_proc`; a full table drops the process. */
    method SchedAddProc(bank: nat, state: ProcState, regs: Regs) returns (ghost slot: nat)
      requires Valid() && (state == Run || state == New)
      modifies this`nextPid, this`lastLeft, procs
      ensures Valid() && nextPid == old(nextPid) + 1
      ensures slot <= MAXPROC
      ensures slot == MAXPROC ==> procs[..] == old(procs[..]) && forall k | 0 <= k < MAXPROC :: procs[k].state != None
      ensures slot < MAXPROC ==>
                && old(procs[slot].state) == None && slot != currentTask
                && procs[..] == old(procs[..])[slot := Process(nextPid, state, regs, bank, old(procs[slot].retval))]
    {
      nextPid := nextPid + 1;
      ghost var ps := procs[..];
      var i := FreeSlot();
      slot := i;
      if i == MAXPROC {
        return;
      }
      var p := Process(nextPid, state, regs, bank, procs[i].retval);
      AddKeepsPids(ps, nextPid - 1, i, p);
      OtherKeepsPairs(ps, kernelTaskQueue[..], i, p);
      procs[i] := p;
      lastLeft := lastLeft[i := regs];
      assert procs[..] == ps[i := p];
    }

    /** The search of `sched_add_proc`; MAXPROC when no slot is free. */
    method FreeSlot() returns (i: nat)
      requires procs.Length == MAXPROC && Runnable(procs[0])
      ensures 0 < i <= MAXPROC && (i < MAXPROC ==> procs[i].state == None)
      ensures i == MAXPROC ==> forall k | 0 <= k < MAXPROC :: procs[k].state != None
    {
      i := 0;
      while i < MAXPROC
        invariant i <= MAXPROC && forall k | 0 <= k < i :: procs[k].state != None
      {
        if procs[i].state == None {
          break;
        }
        i := i + 1;
      }
    }

    /** The caller of a queued task: the only process with its pid, and waiting. */
    method Caller(i: nat) returns (c: nat)
      requires Valid() && i < MAX_QUEUE_SIZE && kernelTaskQueue[i].Task?
      ensures 0 < c < MAXPROC && procs[c].pid == kernelTaskQueue[i].callerPid && procs[c].state == KWorker
    {
      ghost var ps, q := procs[..], kernelTaskQueue[..];
      assert q[i] == kernelTaskQueue[i];
      assert Waits(ps, q[i].callerPid);
      ghost var w :| 0 < w < |ps| && ps[w].pid == q[i].callerPid && ps[w].state == KWorker;
      var found: bool;
      found, c := FindProcByPid(kernelTaskQueue[i].callerPid);
      assert procs[w].pid == kernelTaskQueue[i].callerPid;
      assert ps[c].pid == ps[w].pid > 0;
    }

    /** The end of a request: the caller's new record, and the queue slot free again, taken as one step. */
    method Finish(i: nat, c: nat, p: Process)
      requires Valid() && i < MAX_QUEUE_SIZE && kernelTaskQueue[i].Task? && 0 < c < MAXPROC
      requires procs[c].pid == kernelTaskQueue[i].callerPid && procs[c].state == KWorker
      requires p.pid == procs[c].pid && (p.state == Run || p.state == Zombie) && currentTask != c
      modifies this`lastLeft, procs, kernelTaskQueue
      ensures Valid() && procs[..] == old(procs[..])[c := p] && lastLeft == old(lastLeft)[c := p.regs]
      ensures kernelTaskQueue[..] == old(kernelTaskQueue[..])[i := NoTask]
    {
      ghost var ps, q := procs[..], kernelTaskQueue[..];
      DoneKeepsPairs(ps, q, nextPid, c, i, p);
      hide Pids, Paired;
      procs[c] := p;
      kernelTaskQueue[i] := NoTask;
      lastLeft := lastLeft[c := p.regs];
      assert procs[..] == ps[c := p] && kernelTaskQueue[..] == q[i := NoTask];
    }

    /** `do_kernel_task_fork`: the caller runs again, and so does a copy of it under a new pid if there
        is a slot. */
    method DoKernelTaskFork(i: nat, newBank: nat)
      requires Valid() && currentTask == 0 && i < MAX_QUEUE_SIZE && kernelTaskQueue[i].Task?
      modifies this`nextPid, this`lastLeft, procs, kernelTaskQueue
      ensures Valid() && kernelTaskQueue[..] == old(kernelTaskQueue[..])[i := NoTask] && nextPid == old(nextPid) + 1
      ensures exists c | 0 < c < MAXPROC ::
                && old(procs[c].pid) == old(kernelTaskQueue[i].callerPid) && old(procs[c].state) == KWorker
                && procs[c] == old(procs[c]).(state := Run)
                && ((forall k | 0 <= k < MAXPROC && k != c :: procs[k] == old(procs[k]) && procs[k].state != None)
                    || exists k | 0 < k < MAXPROC && k != c ::
                         && old(procs[k].state) == None
                         && procs[k] == Process(nextPid, Run, procs[c].regs, newBank, old(procs[k].retval))
                         && forall l | 0 <= l < MAXPROC && l != k && l != c :: procs[l] == old(procs[l]))
    {
      var c := Caller(i);
      ghost var ps := procs[..];
      hide Pids, Paired;
      ghost var slot := ForkEnd(i, c, newBank);
      ghost var ps1 := ps[c := ps[c].(state := Run)];
      assert procs[..][c] == procs[c];
      if slot == MAXPROC {
        assert forall k | 0 <= k < MAXPROC && k != c :: procs[..][k] == ps1[k] == ps[k];
      } else {
        assert procs[..][slot] == procs[slot];
        assert forall l | 0 <= l < MAXPROC && l != slot && l != c :: procs[..][l] == ps1[l] == ps[l];
      }
    }

    /** What happens while the worker runs with interrupts on: other processes get the processor, and those
        that run may ask for something. A caller that waits, and its request, stay as they are. */
    method Interrupts(events: seq<Event>, i: nat, c: nat)
      requires Valid() && i < MAX_QUEUE_SIZE && kernelTaskQueue[i].Task? && 0 < c < MAXPROC && procs[c].state == KWorker
      modifies this`currentTask, this`ticksToSwitch, this`lastLeft, procs, kernelTaskQueue
      ensures Valid() && procs[c] == old(procs[c]) && kernelTaskQueue[i] == old(kernelTaskQueue[i])
      ensures events == [] ==> currentTask == old(currentTask)
    {
      hide Pids, Paired, NextTask;
      var n := 0;
      while n < |events|
        invariant n <= |events| && Valid() && procs[c] == old(procs[c]) && kernelTaskQueue[i] == old(kernelTaskQueue[i])
        invariant n == 0 ==> currentTask == old(currentTask)
        decreases |events| - n
      {
        match events[n] {
        case Tick(fr) =>
          var next := TimerInterrupt(fr);
        case Ask(kind, fr) =>
          if 0 < currentTask < MAXPROC && procs[currentTask].state == Run {
            ghost var ps, q, cur := procs[..], kernelTaskQueue[..], currentTask;
            SystemInterrupt(kind, fr);
            assert procs[c] == procs[..][c] == ps[c] && q[i] == old(kernelTaskQueue[i]);
            assert kernelTaskQueue[i] == kernelTaskQueue[..][i];
          }
        }
        n := n + 1;
      }
    }

    /** `do_kernel_task_fork` with interrupts on between the search for the caller and the new process, while the
        banks are copied. When the worker has the processor again it finds the request as it left it. */
    method ForkAcross(i: nat, newBank: nat, events: seq<Event>) returns (served: bool)
      requires Valid() && currentTask == 0 && i < MAX_QUEUE_SIZE && kernelTaskQueue[i].Task?
      modifies this
      modifies procs, kernelTaskQueue
      ensures Valid() && (events == [] ==> served)
      ensures exists c | 0 < c < MAXPROC ::
                && old(procs[c].pid) == old(kernelTaskQueue[i].callerPid) && old(procs[c].state) == KWorker
                && if served then
                     && kernelTaskQueue[i] == NoTask && procs[c] == old(procs[c]).(state := Run)
                     && ((forall k | 0 <= k < MAXPROC :: procs[k].state != None)
                         || exists k | 0 < k < MAXPROC && k != c ::
                              procs[k] == Process(nextPid, Run, procs[c].regs, newBank, procs[k].retval))
                   else kernelTaskQueue[i] == old(kernelTaskQueue[i]) && procs[c] == old(procs[c])
    {
      var c := Caller(i);
      Interrupts(events, i, c);
      served := currentTask == 0;
      if served {
        assert procs[..][c] == procs[c];
        ghost var slot := ForkEnd(i, c, newBank);
        assert kernelTaskQueue[..][i] == NoTask && procs[..][c] == procs[c];
        assert slot < MAXPROC ==> procs[..][slot] == procs[slot];
      }
    }

    /** The end of a fork: the caller runs again, and its copy is made. */
    method ForkEnd(i: nat, c: nat, newBank: nat) returns (ghost slot: nat)
      requires Valid() && currentTask == 0 && i < MAX_QUEUE_SIZE && kernelTaskQueue[i].Task? && 0 < c < MAXPROC
      requires procs[c].pid == kernelTaskQueue[i].callerPid && procs[c].state == KWorker
      modifies this`nextPid, this`lastLeft, procs, kernelTaskQueue
      ensures Valid() && kernelTaskQueue[..] == old(kernelTaskQueue[..])[i := NoTask] && nextPid == old(nextPid) + 1
      ensures slot <= MAXPROC && slot != c
      ensures slot == MAXPROC ==>
                && procs[..] == old(procs[..])[c := old(procs[c]).(state := Run)] && forall k | 0 <= k < MAXPROC :: procs[k].state != None
      ensures slot < MAXPROC ==>
                && 0 < slot && old(procs[slot].state) == None
                && procs[..] == old(procs[..])[c := old(procs[c]).(state := Run)]
                                 [slot := Process(nextPid, Run, old(procs[c].regs), newBank, old(procs[slot].retval))]
    {
      ghost var ps := procs[..];
      Finish(i, c, procs[c].(state := Run));
      ghost var ps1 := procs[..];
      hide Paired;
      assert procs[..][0] == procs[0] && procs[0].state != None && procs[..][c] == procs[c];
      hide Pids;
      slot := SchedAddProc(newBank, Run, procs[c].regs);
      assert slot < MAXPROC ==> slot != c && slot != 0 && ps1[slot] == ps[slot];
    }

    /** `do_kernel_task_execve`: a file that cannot be opened sends the caller back as it was, a program
        that was loaded starts at its entry. */
    method DoKernelTaskExecve(i: nat, loaded: bool)
      requires Valid() && currentTask == 0 && i < MAX_QUEUE_SIZE && kernelTaskQueue[i].Task?
      modifies this`lastLeft, procs, kernelTaskQueue
      ensures Valid() && kernelTaskQueue[..] == old(kernelTaskQueue[..])[i := NoTask]
      ensures exists c | 0 < c < MAXPROC ::
                && old(procs[c].pid) == old(kernelTaskQueue[i].callerPid) && old(procs[c].state) == KWorker
                && procs[..] == old(procs[..])[c := old(procs[c]).(state := Run,
                     regs := if loaded then Regs(0xc000, 0xc000, 0xc000 + 64 * 4, 0x8000) else old(procs[c].regs))]
    {
      var c := Caller(i);
      var regs := if loaded then Regs(0xc000, 0xc000, 0xc000 + 64 * 4, 0x8000) else procs[c].regs;
      Finish(i, c, procs[c].(state := Run, regs := regs));
    }

    /** `do_kernel_task_exit`. */
    method DoKernelTaskExit(i: nat, code: int)
      requires Valid() && currentTask == 0 && i < MAX_QUEUE_SIZE && kernelTaskQueue[i].Task?
      modifies this`lastLeft, procs, kernelTaskQueue
      ensures Valid() && kernelTaskQueue[..] == old(kernelTaskQueue[..])[i := NoTask]
      ensures exists c | 0 < c < MAXPROC ::
                && old(procs[c].pid) == old(kernelTaskQueue[i].callerPid) && old(procs[c].state) == KWorker
                && procs[..] == old(procs[..])[c := old(procs[c]).(state := Zombie, retval := code)]
    {
      var c := Caller(i);
      Finish(i, c, procs[c].(state := Zombie, retval := code));
    }

    /** `do_kernel_task_waitpid`: the request stays queued until the process waited for is a zombie;
        then its slot becomes free and the caller gets its exit code. */
    method DoKernelTaskWaitpid(i: nat, pid: nat) returns (status: int)
      requires Valid() && currentTask == 0 && i < MAX_QUEUE_SIZE && kernelTaskQueue[i].Task?
      modifies this`lastLeft, procs, kernelTaskQueue
      ensures Valid()
      ensures var dead := exists k | 0 <= k < MAXPROC :: old(procs[k].pid) == pid && old(procs[k].state) == Zombie;
              if dead then
                && kernelTaskQueue[..] == old(kernelTaskQueue[..])[i := NoTask]
                && exists c, k | 0 < c < MAXPROC && 0 < k < MAXPROC && c != k ::
                     && old(procs[c].pid) == old(kernelTaskQueue[i].callerPid) && old(procs[c].state) == KWorker
                     && old(procs[k].pid) == pid && old(procs[k].state) == Zombie && status == old(procs[k].retval)
                     && procs[..] == old(procs[..])[k := old(procs[k]).(state := None)][c := old(procs[c]).(state := Run)]
              else procs[..] == old(procs[..]) && kernelTaskQueue[..] == old(kernelTaskQueue[..])
    {
      status := 0;
      var c := Caller(i);
      ghost var ps := procs[..];
      var found, child := FindProcByPid(pid);
      if !found {
        return;
      }
      OnlyZombie(ps, nextPid, child);
      hide Pids, Paired;
      if procs[child].state != Zombie {
        return;
      }
      status := Reap(i, c, child);
    }

    /** The zombie's slot becomes free, and the caller runs again with its exit code. */
    method Reap(i: nat, c: nat, child: nat) returns (status: int)
      requires Valid() && currentTask == 0 && i < MAX_QUEUE_SIZE && kernelTaskQueue[i].Task? && 0 < c < MAXPROC && 0 < child < MAXPROC
      requires procs[c].pid == kernelTaskQueue[i].callerPid && procs[c].state == KWorker && procs[child].state == Zombie
      modifies this`lastLeft, procs, kernelTaskQueue
      ensures Valid() && status == old(procs[child].retval) && c != child
      ensures procs[..] == old(procs[..])[child := old(procs[child]).(state := None)][c := old(procs[c]).(state := Run)]
      ensures kernelTaskQueue[..] == old(kernelTaskQueue[..])[i := NoTask]
    {
      ghost var ps := procs[..];
      status := procs[child].retval;
      OtherKeepsPairs(ps, kernelTaskQueue[..], child, procs[child].(state := None));
      hide Paired;
      procs[child] := procs[child].(state := None);
      assert procs[..] == ps[child := ps[child].(state := None)];
      Finish(i, c, procs[c].(state := Run));
    }
  }

  lemma NearestIsNext(ps: seq<Process>, current: nat, k: nat)
    requires |ps| == MAXPROC && current <= MAXPROC && k < MAXPROC && Runnable(ps[k])
    requires forall i | 0 <= i < MAXPROC && Distance(current, i) < Distance(current, k) :: !Runnable(ps[i])
    ensures NextTask(ps, current) == k
  {
    NextIsNearest(ps, current, k);
    var r := NextTask(ps, current);
    assert Distance(current, r) == Distance(current, k);
  }

  lemma SwitchKeeps(ps: seq<Process>, ps1: seq<Process>, ps2: seq<Process>, q: seq<Task>, nextPid: nat, cur: nat, next: nat, fr: Regs)
    requires Pids(ps, nextPid) && Paired(ps, q) && cur <= MAXPROC && next < MAXPROC && |ps| == |ps1| == |ps2| == MAXPROC
    requires forall i | 0 <= i < MAXPROC :: ps2[i].pid == ps[i].pid
    requires forall i | 0 <= i < MAXPROC ::
               ps2[i].state == (if i == next && ps[i].state == New then Run else ps[i].state)
    ensures Pids(ps2, nextPid) && Paired(ps2, q)
  {
    forall k | 0 <= k < |q| && q[k].Task? ensures Waits(ps2, q[k].callerPid) {
      assert Waits(ps, q[k].callerPid);
      var i :| 0 < i < |ps| && ps[i].pid == q[k].callerPid && ps[i].state == KWorker;
      assert ps2[i].pid == ps[i].pid && ps2[i].state == KWorker;
    }
    forall i | 0 < i < |ps2| && ps2[i].state == KWorker ensures Queued(q, ps2[i].pid) {
      assert ps[i].state == KWorker;
    }
  }

  /** With unique pids the first slot with a pid is the only one that can be a zombie. */
  lemma OnlyZombie(ps: seq<Process>, nextPid: nat, child: nat)
    requires Pids(ps, nextPid) && child < MAXPROC && forall k | 0 <= k < child :: ps[k].pid != ps[child].pid
    ensures (exists k | 0 <= k < MAXPROC :: ps[k].pid == ps[child].pid && ps[k].state == Zombie) <==> ps[child].state == Zombie
    ensures ps[child].state == Zombie ==> child > 0
  {
    if k :| 0 <= k < MAXPROC && ps[k].pid == ps[child].pid && ps[k].state == Zombie {
      assert k > 0 && ps[k].pid > 0;
    }
  }

  // ----- the end of execve, where interrupts are on -----

  /** The caller of request i runs again, and the worker has not yet taken the request out of the queue. */
  ghost predicate Finishing(ps: seq<Process>, q: seq<Task>, nextPid: nat, i: nat) {
    i < |q| && q[i].Task? && Pids(ps, nextPid) && Paired(ps, q[i := NoTask])
  }

  lemma FinishingStarts(ps: seq<Process>, q: seq<Task>, nextPid: nat, c: nat, i: nat, p: Process)
    requires Pids(ps, nextPid) && Paired(ps, q) && 0 < c < MAXPROC && i < |q| && q[i].Task? && q[i].callerPid == ps[c].pid
    requires ps[c].state == KWorker && p.pid == ps[c].pid && p.state == Run
    ensures Finishing(ps[c := p], q, nextPid, i)
  {
    hide Pids, Paired;
    DoneKeepsPairs(ps, q, nextPid, c, i, p);
  }

  /** A running process, the caller itself too, still finds room for a request of its own, */
  lemma RoomWhileFinishing(ps: seq<Process>, q: seq<Task>, nextPid: nat, i: nat, c: nat)
    requires Finishing(ps, q, nextPid, i) && 0 < c < MAXPROC && ps[c].state == Run
    ensures exists j | 0 <= j < |q| :: q[j] == NoTask
  {
    if forall j | 0 <= j < |q| :: q[j] != NoTask {
      var q1 := q[i := NoTask];
      var slots := seq(|q|, j requires 0 <= j < |q| => if j == i then c else CallerSlot(ps, q[j].callerPid));
      forall j | 0 <= j < |q| && j != i ensures 0 < slots[j] < MAXPROC && slots[j] != c && ps[slots[j]].pid == q[j].callerPid {
        assert q1[j] == q[j] && Waits(ps, q1[j].callerPid);
        CallerSlotIs(ps, q[j].callerPid);
      }
      forall a, b | 0 <= a < b < |slots| ensures slots[a] != slots[b] {
        assert a != i && b != i ==> q1[a].callerPid != q1[b].callerPid;
      }
      SlotsBound(slots);
    }
  }

  /** and with the new request everything is as it must be again once the old one is taken out. */
  lemma AskWhileFinishing(ps: seq<Process>, q: seq<Task>, nextPid: nat, i: nat, c: nat, j: nat, kind: Kind, fr: Regs)
    requires Finishing(ps, q, nextPid, i) && 0 < c < MAXPROC && ps[c].state == Run && j < |q| && q[j] == NoTask
    ensures Finishing(ps[c := ps[c].(regs := fr, state := KWorker)], q[j := Task(kind, ps[c].pid)], nextPid, i)
  {
    assert |ps| == MAXPROC && |q| == MAX_QUEUE_SIZE;
    hide Pids, Paired;
    var q1 := q[i := NoTask];
    AskKeepsPairs(ps, q1, nextPid, c, j, kind, fr);
    assert q1[j := Task(kind, ps[c].pid)] == q[j := Task(kind, ps[c].pid)][i := NoTask];
  }

  /** The switch to another process keeps it. */
  lemma SwitchWhileFinishing(ps: seq<Process>, ps1: seq<Process>, q: seq<Task>, nextPid: nat, i: nat, cur: nat, next: nat, fr: Regs)
    requires Finishing(ps, q, nextPid, i) && cur <= MAXPROC && next < MAXPROC && |ps1| == MAXPROC
    requires forall k | 0 <= k < MAXPROC :: ps1[k].pid == ps[k].pid
    requires forall k | 0 <= k < MAXPROC :: ps1[k].state == (if k == next && ps[k].state == New then Run else ps[k].state)
    ensures Finishing(ps1, q, nextPid, i)
  {
    SwitchKeeps(ps, ps1, ps1, q[i := NoTask], nextPid, cur, next, fr);
    hide Paired;
  }
}
