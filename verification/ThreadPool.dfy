/** The thread pool as a transition system: a mutex-protected deque of tasks, a condition
    variable and a stop flag. Each critical section, notification and return from a task is
    one step; steps of different threads interleave freely, and a waiting worker may wake up
    without a notification. */
module ThreadPool {
  import opened Sequences

  type Task = nat

  /** Checking: about to take the lock and evaluate the wait's predicate, never having waited for it
      this time round. Woken: the same after a wait. */
  datatype Worker = Checking | Waiting | Woken | Running(task: Task) | Exited

  datatype Pool = Pool(
    workers: seq<Worker>,
    tasks: seq<Task>,
    running: bool,
    notifyOnes: nat,     // enqueues that have pushed but not yet notified
    notifyAll: bool,     // the destructor has cleared the flag but not yet notified
    enqueued: seq<Task>, // history: pushed, popped and finished tasks, in order
    dequeued: seq<Task>,
    finished: seq<Task>)

  datatype Action =
    | Check(w: nat)               // a worker takes the lock: runs a task, waits or exits
    | Finish(w: nat)              // a task returns
    | Push(task: Task)            // enqueue's critical section, by a caller outside the pool
    | PushFrom(w: nat, task: Task) // the same, by a running task
    | NotifyOne(w: nat)           // enqueue's notify_one wakes this worker
    | NotifyNobody                // ... or finds none waiting
    | Stop                        // the destructor's critical section
    | NotifyAll                   // the destructor's notify_all
    | Spurious(w: nat)            // a wait returns on its own

  function Start(numThreads: nat): Pool {
    Pool(seq(numThreads, _ => Checking), [], true, 0, false, [], [], [])
  }

  predicate AnyWaiting(p: Pool) {
    Waiting in p.workers
  }

  /** Callers outside the pool enqueue only before the destructor runs: the object must be alive. */
  predicate Enabled(p: Pool, a: Action) {
    match a
    case Check(w) => w < |p.workers| && (p.workers[w].Checking? || p.workers[w].Woken?)
    case Finish(w) => w < |p.workers| && p.workers[w].Running?
    case Push(_) => p.running
    case PushFrom(w, _) => w < |p.workers| && p.workers[w].Running?
    case NotifyOne(w) => p.notifyOnes > 0 && w < |p.workers| && p.workers[w].Waiting?
    case NotifyNobody => p.notifyOnes > 0 && !AnyWaiting(p)
    case Stop => p.running
    case NotifyAll => p.notifyAll
    case Spurious(w) => w < |p.workers| && p.workers[w].Waiting?
  }

  function WakeAll(ws: seq<Worker>): (r: seq<Worker>)
    ensures |r| == |ws|
    ensures forall i :: 0 <= i < |ws| ==> r[i] == if ws[i].Waiting? then Woken else ws[i]
  {
    if ws == [] then [] else [if ws[0].Waiting? then Woken else ws[0]] + WakeAll(ws[1..])
  }

  /** The worker loop's critical section. */
  function CheckStep(p: Pool, w: nat): Pool
    requires w < |p.workers|
  {
    if p.running && p.tasks == [] then p.(workers := p.workers[w := Waiting])
    else if !p.running && p.tasks == [] then p.(workers := p.workers[w := Exited])
    else p.(workers := p.workers[w := Running(p.tasks[0])], tasks := p.tasks[1..],
            dequeued := p.dequeued + [p.tasks[0]])
  }

  function PushStep(p: Pool, t: Task): Pool {
    p.(tasks := p.tasks + [t], enqueued := p.enqueued + [t], notifyOnes := p.notifyOnes + 1)
  }

  function Next(p: Pool, a: Action): Pool
    requires Enabled(p, a)
  {
    match a
    case Check(w) => CheckStep(p, w)
    case Finish(w) => p.(workers := p.workers[w := Checking], finished := p.finished + [p.workers[w].task])
    case Push(t) => PushStep(p, t)
    case PushFrom(_, t) => PushStep(p, t)
    case NotifyOne(w) => p.(workers := p.workers[w := Woken], notifyOnes := p.notifyOnes - 1)
    case NotifyNobody => p.(notifyOnes := p.notifyOnes - 1)
    case Stop => p.(running := false, notifyAll := true)
    case NotifyAll => p.(workers := WakeAll(p.workers), notifyAll := false)
    case Spurious(w) => p.(workers := p.workers[w := Woken])
  }

  /** A run: every action is enabled where it is taken. */
  predicate CanRun(p: Pool, run: seq<Action>)
    decreases |run|
  {
    run == [] || (Enabled(p, run[0]) && CanRun(Next(p, run[0]), run[1..]))
  }

  function After(p: Pool, run: seq<Action>): Pool
    requires CanRun(p, run)
    decreases |run|
  {
    if run == [] then p else After(Next(p, run[0]), run[1..])
  }

  // ---- Counting workers -------------------------------------------------------------------

  function Count(ws: seq<Worker>, f: Worker -> bool): nat {
    if ws == [] then 0 else (if f(ws[0]) then 1 else 0) + Count(ws[1..], f)
  }

  lemma {:induction false} CountUpdate(ws: seq<Worker>, w: nat, v: Worker, f: Worker -> bool)
    requires w < |ws|
    ensures Count(ws[w := v], f) + (if f(ws[w]) then 1 else 0) == Count(ws, f) + if f(v) then 1 else 0
  {
    if w == 0 {
      assert ws[w := v][1..] == ws[1..];
    } else {
      assert ws[w := v][1..] == ws[1..][w - 1 := v];
      CountUpdate(ws[1..], w - 1, v, f);
    }
  }

  /** How many workers are running this task. Tasks are instances: the same one may be enqueued twice. */
  function RunningCount(ws: seq<Worker>, t: Task): nat {
    Count(ws, (w: Worker) => w == Running(t))
  }

  lemma RunningCountUpdate(ws: seq<Worker>, w: nat, v: Worker, t: Task)
    requires w < |ws|
    ensures RunningCount(ws[w := v], t) + (if ws[w] == Running(t) then 1 else 0) ==
            RunningCount(ws, t) + if v == Running(t) then 1 else 0
  {
    CountUpdate(ws, w, v, (x: Worker) => x == Running(t));
  }

  lemma {:induction false} CountWakeAll(ws: seq<Worker>, f: Worker -> bool)
    requires f(Woken) == f(Waiting)
    ensures Count(WakeAll(ws), f) == Count(ws, f)
  {
    if ws != [] {
      assert WakeAll(ws)[1..] == WakeAll(ws[1..]);
      CountWakeAll(ws[1..], f);
    }
  }

  lemma {:induction false} CountNone(ws: seq<Worker>, f: Worker -> bool)
    requires forall i :: 0 <= i < |ws| ==> !f(ws[i])
    ensures Count(ws, f) == 0
  {
    if ws != [] { CountNone(ws[1..], f); }
  }

  // ---- The invariant ------------------------------------------------------------------------

  predicate IsWoken(w: Worker) {
    w.Woken?
  }

  function WokenCount(p: Pool): nat {
    Count(p.workers, IsWoken)
  }

  /** While a worker waits, every queued task has its own notification: one still to be given, or one
      given to a worker that has not rechecked yet. */
  predicate NoLostWakeup(p: Pool) {
    AnyWaiting(p) ==> |p.tasks| <= p.notifyOnes + WokenCount(p)
  }

  /** Once the flag is cleared, a waiting worker is about to be woken by notify_all. */
  predicate StopReachesAll(p: Pool) {
    !p.running && AnyWaiting(p) ==> p.notifyAll
  }

  /** First in, first out, and nothing lost or duplicated: every start of a task is either in progress
      or finished. */
  ghost predicate Fifo(p: Pool) {
    && p.dequeued + p.tasks == p.enqueued
    && forall t: Task :: Accounted(p, t)
  }

  predicate Accounted(p: Pool, t: Task) {
    multiset(p.finished)[t] + RunningCount(p.workers, t) == multiset(p.dequeued)[t]
  }

  predicate AllExited(p: Pool) {
    forall i :: 0 <= i < |p.workers| ==> p.workers[i].Exited?
  }

  /** Workers exit only after the flag is cleared; when the last has, the queue is empty. */
  predicate DrainedOnExit(p: Pool) {
    && (Exited in p.workers ==> !p.running)
    && (p.workers != [] && AllExited(p) ==> p.tasks == [])
  }

  ghost predicate Inv(p: Pool) {
    NoLostWakeup(p) && StopReachesAll(p) && Fifo(p) && DrainedOnExit(p)
  }

  lemma StartInv(n: nat)
    ensures Inv(Start(n))
  {
    forall t: Task ensures Accounted(Start(n), t) {
      CountNone(Start(n).workers, (w: Worker) => w == Running(t));
    }
  }

  lemma StepKeepsWakeups(p: Pool, a: Action)
    requires NoLostWakeup(p) && Enabled(p, a)
    ensures NoLostWakeup(Next(p, a))
  {
    match a
    case Check(w) => CountUpdate(p.workers, w, Next(p, a).workers[w], IsWoken);
    case Finish(w) => CountUpdate(p.workers, w, Checking, IsWoken);
    case NotifyOne(w) => CountUpdate(p.workers, w, Woken, IsWoken);
    case Spurious(w) => CountUpdate(p.workers, w, Woken, IsWoken);
    case _ =>
  }

  lemma SnocCount(s: seq<Task>, last: Task, t: Task)
    ensures multiset(s + [last])[t] == multiset(s)[t] + if last == t then 1 else 0
  {
  }

  lemma StepKeepsQueue(p: Pool, a: Action)
    requires p.dequeued + p.tasks == p.enqueued && Enabled(p, a)
    ensures Next(p, a).dequeued + Next(p, a).tasks == Next(p, a).enqueued
  {
    match a
    case Check(w) =>
      if p.tasks != [] {
        assert p.tasks == [p.tasks[0]] + p.tasks[1..];
        Assoc(p.dequeued, [p.tasks[0]], p.tasks[1..]);
      }
    case Push(t) => Assoc(p.dequeued, p.tasks, [t]);
    case PushFrom(_, t) => Assoc(p.dequeued, p.tasks, [t]);
    case _ =>
  }

  lemma StepKeepsAccounts(p: Pool, a: Action, t: Task)
    requires Accounted(p, t) && Enabled(p, a)
    ensures Accounted(Next(p, a), t)
  {
    match a
    case Check(w) =>
      RunningCountUpdate(p.workers, w, CheckStep(p, w).workers[w], t);
      if p.tasks != [] { SnocCount(p.dequeued, p.tasks[0], t); }
    case Finish(w) =>
      RunningCountUpdate(p.workers, w, Checking, t);
      SnocCount(p.finished, p.workers[w].task, t);
    case NotifyOne(w) => RunningCountUpdate(p.workers, w, Woken, t);
    case Spurious(w) => RunningCountUpdate(p.workers, w, Woken, t);
    case NotifyAll => CountWakeAll(p.workers, (w: Worker) => w == Running(t));
    case _ =>
  }

  lemma StepKeepsFifo(p: Pool, a: Action)
    requires Fifo(p) && Enabled(p, a)
    ensures Fifo(Next(p, a))
  {
    StepKeepsQueue(p, a);
    forall t: Task ensures Accounted(Next(p, a), t) {
      StepKeepsAccounts(p, a, t);
    }
  }

  lemma StepKeepsExit(p: Pool, a: Action)
    requires StopReachesAll(p) && DrainedOnExit(p) && Enabled(p, a)
    ensures StopReachesAll(Next(p, a)) && DrainedOnExit(Next(p, a))
  {
    var q := Next(p, a);
    match a
    case Check(w) =>
      if p.tasks != [] { assert !q.workers[w].Exited?; }
      if !p.running && Waiting in q.workers { assert Waiting in p.workers; }
    case Finish(w) => assert !q.workers[w].Exited?;
    case NotifyOne(w) => assert !q.workers[w].Exited?;
    case Spurious(w) => assert !q.workers[w].Exited?;
    case PushFrom(w, _) => assert !q.workers[w].Exited?;
    case Push(_) => if p.workers != [] { assert p.workers[0] in p.workers; }
    case NotifyAll =>
      if AllExited(q) {
        forall i | 0 <= i < |p.workers| ensures p.workers[i].Exited? { assert q.workers[i].Exited?; }
      }
    case _ =>
  }

  lemma StepKeepsInv(p: Pool, a: Action)
    requires Inv(p) && Enabled(p, a)
    ensures Inv(Next(p, a)) && |Next(p, a).workers| == |p.workers|
  {
    StepKeepsWakeups(p, a);
    StepKeepsFifo(p, a);
    StepKeepsExit(p, a);
  }

  /** Every reachable state satisfies the invariant, under any interleaving and any spurious wakeups. */
  lemma {:induction false} RunKeepsInv(p: Pool, run: seq<Action>)
    requires Inv(p) && CanRun(p, run)
    ensures Inv(After(p, run)) && |After(p, run).workers| == |p.workers|
    decreases |run|
  {
    if run != [] {
      StepKeepsInv(p, run[0]);
      RunKeepsInv(Next(p, run[0]), run[1..]);
    }
  }

  // ---- Main theorems ------------------------------------------------------------------------

  /** No worker sleeps on queued work: with every notification given and every woken worker back,
      a waiting worker means an empty queue. Once the destructor has notified, none waits at all. */
  lemma NobodySleepsOnWork(n: nat, run: seq<Action>)
    requires CanRun(Start(n), run)
    ensures var q := After(Start(n), run);
            && (AnyWaiting(q) ==> |q.tasks| <= q.notifyOnes + WokenCount(q))
            && (AnyWaiting(q) && q.notifyOnes == 0 && WokenCount(q) == 0 ==> q.tasks == [])
            && (!q.running && !q.notifyAll ==> !AnyWaiting(q))
  {
    StartInv(n);
    RunKeepsInv(Start(n), run);
  }

  /** Tasks start in the order they were enqueued, and every one that started is running or has
      finished, once. */
  lemma TasksAreFifo(n: nat, run: seq<Action>)
    requires CanRun(Start(n), run)
    ensures var q := After(Start(n), run);
            && q.dequeued + q.tasks == q.enqueued
            && forall t: Task :: multiset(q.finished)[t] + RunningCount(q.workers, t) == multiset(q.dequeued)[t]
  {
    StartInv(n);
    RunKeepsInv(Start(n), run);
    var q := After(Start(n), run);
    forall t: Task
      ensures multiset(q.finished)[t] + RunningCount(q.workers, t) == multiset(q.dequeued)[t]
    {
      assert Accounted(q, t);
    }
  }

  lemma ExitedMeansFinished(q: Pool)
    requires Fifo(q) && AllExited(q)
    ensures multiset(q.finished) == multiset(q.dequeued)
  {
    forall t: Task ensures multiset(q.finished)[t] == multiset(q.dequeued)[t] {
      assert Accounted(q, t);
      CountNone(q.workers, (w: Worker) => w == Running(t));
    }
  }

  lemma {:induction false} NoWorkersNoWork(p: Pool, run: seq<Action>)
    requires p.workers == [] && p.finished == [] && CanRun(p, run)
    ensures After(p, run).finished == []
    decreases |run|
  {
    if run != [] { NoWorkersNoWork(Next(p, run[0]), run[1..]); }
  }

  /** When all workers have exited, every task ever enqueued has finished exactly once: this holds
      exactly for pools with a thread in them, or in which nothing was enqueued. */
  lemma AllTasksFinish(n: nat, run: seq<Action>)
    requires CanRun(Start(n), run) && AllExited(After(Start(n), run))
    ensures var q := After(Start(n), run);
            && (n >= 1 ==> q.tasks == [])
            && (multiset(q.finished) == multiset(q.enqueued) <==> n >= 1 || q.enqueued == [])
  {
    var q := After(Start(n), run);
    StartInv(n);
    RunKeepsInv(Start(n), run);
    ExitedMeansFinished(q);
    if n == 0 {
      NoWorkersNoWork(Start(n), run);
      assert q.enqueued != [] ==> q.enqueued[0] in multiset(q.enqueued);
    } else {
      assert q.dequeued == q.enqueued;
    }
  }

  // ---- Shutdown terminates --------------------------------------------------------------------

  function Weight(w: Worker): nat {
    match w
    case Exited => 0
    case Checking => 1
    case Woken => 1
    case Waiting => 2
    case Running(_) => 2
  }

  function TotalWeight(ws: seq<Worker>): nat {
    if ws == [] then 0 else Weight(ws[0]) + TotalWeight(ws[1..])
  }

  lemma {:induction false} TotalWeightUpdate(ws: seq<Worker>, w: nat, v: Worker)
    requires w < |ws|
    ensures TotalWeight(ws[w := v]) + Weight(ws[w]) == TotalWeight(ws) + Weight(v)
  {
    if w == 0 {
      assert ws[w := v][1..] == ws[1..];
    } else {
      assert ws[w := v][1..] == ws[1..][w - 1 := v];
      TotalWeightUpdate(ws[1..], w - 1, v);
    }
  }

  lemma {:induction false} WakeAllIsNoHeavier(ws: seq<Worker>)
    ensures TotalWeight(WakeAll(ws)) <= TotalWeight(ws)
  {
    if ws != [] {
      assert WakeAll(ws)[1..] == WakeAll(ws[1..]);
      WakeAllIsNoHeavier(ws[1..]);
    }
  }

  function Measure(p: Pool): nat {
    TotalWeight(p.workers) + 2 * |p.tasks| + p.notifyOnes + if p.notifyAll then 1 else 0
  }

  predicate IsPush(a: Action) {
    a.Push? || a.PushFrom?
  }

  function Pushes(run: seq<Action>): nat {
    if run == [] then 0 else (if IsPush(run[0]) then 1 else 0) + Pushes(run[1..])
  }

  /** After the flag is cleared every step brings the end nearer, except an enqueue. */
  lemma StoppedStepDescends(p: Pool, a: Action)
    requires !p.running && Enabled(p, a)
    ensures !Next(p, a).running
    ensures if IsPush(a) then Measure(Next(p, a)) == Measure(p) + 3 else Measure(Next(p, a)) < Measure(p)
  {
    match a
    case Check(w) => TotalWeightUpdate(p.workers, w, Next(p, a).workers[w]);
    case Finish(w) => TotalWeightUpdate(p.workers, w, Checking);
    case NotifyOne(w) => TotalWeightUpdate(p.workers, w, Woken);
    case Spurious(w) => TotalWeightUpdate(p.workers, w, Woken);
    case NotifyAll => WakeAllIsNoHeavier(p.workers);
    case _ =>
  }

  /** A run after the destructor cleared the flag is no longer than this, so with finitely many
      enqueues by running tasks it ends. */
  lemma {:induction false} StoppedRunIsBounded(p: Pool, run: seq<Action>)
    requires !p.running && CanRun(p, run)
    ensures |run| <= Measure(p) + 4 * Pushes(run)
    decreases |run|
  {
    if run != [] {
      StoppedStepDescends(p, run[0]);
      StoppedRunIsBounded(Next(p, run[0]), run[1..]);
    }
  }

  /** It cannot end before all workers have exited: until then some step other than an enqueue can
      be taken, if only the return of a running task. */
  lemma StoppedPoolIsNotStuck(n: nat, run: seq<Action>) returns (a: Action)
    requires CanRun(Start(n), run) && !After(Start(n), run).running && !AllExited(After(Start(n), run))
    ensures Enabled(After(Start(n), run), a) && !IsPush(a)
  {
    var q := After(Start(n), run);
    StartInv(n);
    RunKeepsInv(Start(n), run);
    var w :| 0 <= w < |q.workers| && !q.workers[w].Exited?;
    a := if q.workers[w].Running? then Finish(w) else if q.workers[w].Waiting? then NotifyAll else Check(w);
  }

  // ---- Queued work is started ---------------------------------------------------------------------

  function Delay(w: Worker): nat {
    if w.Running? || w.Waiting? then 1 else 0
  }

  function TotalDelay(ws: seq<Worker>): nat {
    if ws == [] then 0 else Delay(ws[0]) + TotalDelay(ws[1..])
  }

  lemma {:induction false} TotalDelayUpdate(ws: seq<Worker>, w: nat, v: Worker)
    requires w < |ws|
    ensures TotalDelay(ws[w := v]) + Delay(ws[w]) == TotalDelay(ws) + Delay(v)
  {
    if w == 0 {
      assert ws[w := v][1..] == ws[1..];
    } else {
      assert ws[w := v][1..] == ws[1..][w - 1 := v];
      TotalDelayUpdate(ws[1..], w - 1, v);
    }
  }

  lemma {:induction false} WakeAllDelaysNobody(ws: seq<Worker>)
    ensures TotalDelay(WakeAll(ws)) <= TotalDelay(ws)
  {
    if ws != [] {
      assert WakeAll(ws)[1..] == WakeAll(ws[1..]);
      WakeAllDelaysNobody(ws[1..]);
    }
  }

  /** How many steps, enqueues aside, can be taken while a queued task is not started. */
  function Patience(p: Pool): nat {
    TotalDelay(p.workers) + p.notifyOnes + (if p.running then 2 else 0) + if p.notifyAll then 1 else 0
  }

  /** With a task queued, a check starts the front task, and any other step uses up patience. */
  lemma BusyStep(p: Pool, a: Action)
    requires p.tasks != [] && Enabled(p, a)
    ensures a.Check? ==> Next(p, a).dequeued == p.dequeued + [p.tasks[0]] && Next(p, a).tasks == p.tasks[1..] &&
                         Next(p, a).workers[a.w] == Running(p.tasks[0])
    ensures !a.Check? ==>
              && Next(p, a).dequeued == p.dequeued && p.tasks <= Next(p, a).tasks
              && if IsPush(a) then Patience(Next(p, a)) == Patience(p) + 1 else Patience(Next(p, a)) < Patience(p)
  {
    match a
    case Finish(w) => TotalDelayUpdate(p.workers, w, Checking);
    case NotifyOne(w) => TotalDelayUpdate(p.workers, w, Woken);
    case Spurious(w) => TotalDelayUpdate(p.workers, w, Woken);
    case NotifyAll => WakeAllDelaysNobody(p.workers);
    case _ =>
  }

  lemma {:induction false} DequeuedGrows(p: Pool, run: seq<Action>)
    requires CanRun(p, run)
    ensures p.dequeued <= After(p, run).dequeued
    decreases |run|
  {
    if run != [] { DequeuedGrows(Next(p, run[0]), run[1..]); }
  }

  /** However the steps are scheduled, the front task is the next one started, and it is started within
      this many steps. */
  lemma {:induction false} FrontTaskStarts(p: Pool, run: seq<Action>)
    requires p.tasks != [] && CanRun(p, run) && |run| > Patience(p) + 2 * Pushes(run)
    ensures p.dequeued + [p.tasks[0]] <= After(p, run).dequeued
    decreases |run|
  {
    BusyStep(p, run[0]);
    if run[0].Check? {
      DequeuedGrows(Next(p, run[0]), run[1..]);
    } else {
      FrontTaskStarts(Next(p, run[0]), run[1..]);
    }
  }

  /** And steps there are: with a thread and a queued task the pool itself can always go on, without an
      enqueue, the destructor or a spurious wakeup. */
  lemma BusyPoolMoves(p: Pool) returns (a: Action)
    requires Inv(p) && p.workers != [] && p.tasks != []
    ensures Enabled(p, a) && !IsPush(a) && !a.Stop? && !a.Spurious?
  {
    if w :| 0 <= w < |p.workers| && !p.workers[w].Exited? && !p.workers[w].Waiting? {
      a := if p.workers[w].Running? then Finish(w) else Check(w);
    } else {
      CountNone(p.workers, IsWoken);
      var w :| 0 <= w < |p.workers| && !p.workers[w].Exited?;
      assert p.workers[w] == Waiting;
      a := NotifyOne(w);
    }
  }

  /** From every reachable state of a pool with threads, steps of its own lead to the start of the front task. */
  lemma {:induction false} FrontTaskCanStart(p: Pool) returns (run: seq<Action>)
    requires Inv(p) && p.workers != [] && p.tasks != []
    ensures CanRun(p, run) && Pushes(run) == 0 && After(p, run).dequeued == p.dequeued + [p.tasks[0]]
    decreases Patience(p)
  {
    var a := BusyPoolMoves(p);
    BusyStep(p, a);
    StepKeepsInv(p, a);
    var rest := [];
    if !a.Check? { rest := FrontTaskCanStart(Next(p, a)); }
    run := [a] + rest;
    assert run[1..] == rest;
  }

  /** The same for a pool that was started with threads, after any run. */
  lemma QueuedTaskIsStarted(n: nat, run: seq<Action>) returns (more: seq<Action>)
    requires n >= 1 && CanRun(Start(n), run) && After(Start(n), run).tasks != []
    ensures var q := After(Start(n), run);
            && CanRun(q, more) && Pushes(more) == 0
            && After(q, more).dequeued == q.dequeued + [q.tasks[0]]
  {
    StartInv(n);
    RunKeepsInv(Start(n), run);
    more := FrontTaskCanStart(After(Start(n), run));
  }

  // ---- The pool as an object --------------------------------------------------------------------

  /** The shared state with its critical sections as methods: each is one step of the system above. */
  class PoolObject {
    var workers: seq<Worker>
    var tasks: seq<Task>
    var running: bool
    var notifyOnes: nat
    var notifyAll: bool
    ghost var enqueued: seq<Task>
    ghost var dequeued: seq<Task>
    ghost var finished: seq<Task>

    ghost function State(): Pool
      reads this
    {
      Pool(workers, tasks, running, notifyOnes, notifyAll, enqueued, dequeued, finished)
    }

    constructor (numThreads: nat)
      ensures State() == Start(numThreads)
      ensures |workers| == numThreads && (forall w :: 0 <= w < numThreads ==> workers[w].Checking?)
      ensures tasks == [] && running && notifyOnes == 0 && !notifyAll && enqueued == dequeued == finished == []
    {
      workers := seq(numThreads, _ => Checking);
      tasks, running, notifyOnes, notifyAll := [], true, 0, false;
      enqueued, dequeued, finished := [], [], [];
    }

    /** The worker loop under the lock: take the front task, or wait, or return when stopped. */
    method CheckAndTake(w: nat) returns (task: Option<Task>)
      requires w < |workers| && (workers[w].Checking? || workers[w].Woken?)
      modifies this`workers, this`tasks, this`dequeued
      ensures Enabled(old(State()), Check(w)) && State() == Next(old(State()), Check(w))
      ensures old(tasks) != [] ==>
                && task == Some(old(tasks)[0]) && tasks == old(tasks)[1..]
                && workers == old(workers)[w := Running(old(tasks)[0])]
                && dequeued == old(dequeued) + [old(tasks)[0]]
      ensures old(tasks) == [] ==>
                && task == None && tasks == [] && dequeued == old(dequeued)
                && workers == old(workers)[w := if running then Waiting else Exited]
    {
      if running && tasks == [] {
        workers := workers[w := Waiting];
        return None;
      }
      if !running && tasks == [] {
        workers := workers[w := Exited];
        return None;
      }
      task := Some(tasks[0]);
      workers := workers[w := Running(tasks[0])];
      dequeued := dequeued + [tasks[0]];
      tasks := tasks[1..];
    }

    /** A task returns, and its worker goes round the loop again. */
    method TaskReturns(w: nat)
      requires w < |workers| && workers[w].Running?
      modifies this`workers, this`finished
      ensures Enabled(old(State()), Finish(w)) && State() == Next(old(State()), Finish(w))
      ensures workers == old(workers)[w := Checking] && finished == old(finished) + [old(workers)[w].task]
    {
      finished := finished + [workers[w].task];
      workers := workers[w := Checking];
    }

    /** enqueue under the lock, by a caller outside before the destructor or by a running task. */
    method PushUnderLock(task: Task)
      requires running || exists w: nat :: w < |workers| && workers[w].Running?
      modifies this`tasks, this`enqueued, this`notifyOnes
      ensures tasks == old(tasks) + [task] && enqueued == old(enqueued) + [task] && notifyOnes == old(notifyOnes) + 1
      ensures running ==> Enabled(old(State()), Push(task)) && State() == Next(old(State()), Push(task))
      ensures forall w: nat :: w < |workers| && workers[w].Running? ==>
                Enabled(old(State()), PushFrom(w, task)) && State() == Next(old(State()), PushFrom(w, task))
    {
      tasks := tasks + [task];
      enqueued := enqueued + [task];
      notifyOnes := notifyOnes + 1;
    }

    /** The rest of enqueue: one waiting worker wakes up, if there is any. */
    method NotifyAfterPush() returns (woken: Option<nat>)
      requires notifyOnes > 0
      modifies this`workers, this`notifyOnes
      ensures notifyOnes == old(notifyOnes) - 1
      ensures if woken.Some?
              then && woken.value < |old(workers)| && old(workers)[woken.value].Waiting?
                   && workers == old(workers)[woken.value := Woken]
                   && Enabled(old(State()), NotifyOne(woken.value))
                   && State() == Next(old(State()), NotifyOne(woken.value))
              else && Waiting !in old(workers) && workers == old(workers)
                   && Enabled(old(State()), NotifyNobody) && State() == Next(old(State()), NotifyNobody)
    {
      woken := None;
      notifyOnes := notifyOnes - 1;
      if w :| 0 <= w < |workers| && workers[w].Waiting? {
        workers := workers[w := Woken];
        woken := Some(w);
      }
    }

    /** The destructor under the lock. */
    method StopUnderLock()
      requires running
      modifies this`running, this`notifyAll
      ensures Enabled(old(State()), Stop) && State() == Next(old(State()), Stop)
      ensures !running && notifyAll
    {
      running := false;
      notifyAll := true;
    }

    /** The destructor's notify_all. */
    method NotifyAfterStop()
      requires notifyAll
      modifies this`workers, this`notifyAll
      ensures Enabled(old(State()), NotifyAll) && State() == Next(old(State()), NotifyAll)
      ensures !notifyAll && |workers| == |old(workers)|
      ensures forall w :: 0 <= w < |workers| ==>
                workers[w] == if old(workers)[w].Waiting? then Woken else old(workers)[w]
    {
      workers := WakeAll(workers);
      notifyAll := false;
    }
  }
}
