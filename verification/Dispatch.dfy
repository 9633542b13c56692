/**
 * The serial dispatch queue of core/dispatch-event.cc, one step for each action of a thread.
 * Several client threads call `async` and `sync`; one worker thread runs `loop` again and again.
 */
module Dispatch {
  datatype Option<T> = None | Some(value: T)

  datatype Thread = Worker | Client(id: nat)

  /** A queued closure: the function it calls, and the client that waits for it if it was queued by `sync`. */
  datatype Job = Job(func: nat, caller: Option<nat>)

  /** Where a client is. The number in the last states is the position of its closure in `pushed`. */
  datatype ClientPc =
    | Idle
    | AsyncEnter(func: nat)
    | AsyncLocked(func: nat)
    | AsyncPushed
    | SyncEnter(func: nat)
    | SyncLocked(func: nat)
    | SyncPushed(func: nat, job: nat)
    | Waiting(func: nat, job: nat)
    | Woken(func: nat, job: nat)
    | SyncRelocked(func: nat, job: nat)
    | SyncDone(func: nat, job: nat)

  /** Where the worker is; `depth` counts the inline `sync` calls that a running function is inside. */
  datatype WorkerPc =
    | Resting
    | Locked
    | Popped(fn: Option<Job>)
    | Running(job: Job, depth: nat)
    | CallEnter(job: Job, depth: nat, func: nat)
    | CallLocked(job: Job, depth: nat, func: nat)
    | CallPushed(job: Job, depth: nat)
    | Returned(job: Job)

  /** The shared state, and three logs: what was pushed, what started to run, and what returned. */
  datatype State = State(
    lock: Option<Thread>, funcs: seq<Job>, clients: seq<ClientPc>, worker: WorkerPc,
    pushed: seq<Job>, ran: seq<Job>, done: seq<Job>)

  datatype Event =
    | CallAsync(t: nat, func: nat)
    | CallSync(t: nat, func: nat)
    | ClientStep(t: nat)
    | WorkerStep
    | WorkerAsync(func: nat)
    | WorkerSync
    | WorkerReturn
    | Spurious(t: nat)

  function Initial(clients: nat): State {
    State(None, [], seq(clients, _ => Idle), Resting, [], [], [])
  }

  // ---------------------------------------------------------------- steps

  predicate WantsLock(pc: ClientPc) {
    pc.AsyncEnter? || pc.SyncEnter? || pc.Woken?
  }

  predicate WorkerWantsLock(pc: WorkerPc) {
    pc.Resting? || pc.CallEnter?
  }

  predicate Enabled(s: State, e: Event) {
    match e
    case CallAsync(t, _) => t < |s.clients| && s.clients[t].Idle?
    case CallSync(t, _) => t < |s.clients| && s.clients[t].Idle?
    case ClientStep(t) =>
      && t < |s.clients| && !s.clients[t].Idle? && !s.clients[t].Waiting?
      && (WantsLock(s.clients[t]) ==> s.lock == None)
    case WorkerStep => !s.worker.Running? && (WorkerWantsLock(s.worker) ==> s.lock == None)
    case WorkerAsync(_) => s.worker.Running?
    case WorkerSync => s.worker.Running?
    case WorkerReturn => s.worker.Running?
    case Spurious(t) => t < |s.clients| && s.clients[t].Waiting?
  }

  function Push(s: State, job: Job): State {
    s.(funcs := s.funcs + [job], pushed := s.pushed + [job])
  }

  function At(s: State, t: nat, pc: ClientPc): State
    requires t < |s.clients|
  {
    s.(clients := s.clients[t := pc])
  }

  function StepClient(s: State, t: nat): State
    requires Enabled(s, ClientStep(t))
  {
    match s.clients[t]
    case AsyncEnter(f) => At(s, t, AsyncLocked(f)).(lock := Some(Client(t)))
    case AsyncLocked(f) => At(Push(s, Job(f, None)), t, AsyncPushed)
    case AsyncPushed => At(s, t, Idle).(lock := None)
    case SyncEnter(f) => At(s, t, SyncLocked(f)).(lock := Some(Client(t)))
    case SyncLocked(f) => At(Push(s, Job(f, Some(t))), t, SyncPushed(f, |s.pushed|))
    case SyncPushed(f, j) => At(s, t, Waiting(f, j)).(lock := None)
    case Woken(f, j) => At(s, t, SyncRelocked(f, j)).(lock := Some(Client(t)))
    case SyncRelocked(f, j) => At(s, t, SyncDone(f, j)).(lock := None)
    case SyncDone(_, _) => At(s, t, Idle)
  }

  /** `pthread_cond_broadcast`: it has no effect unless the caller is already inside `pthread_cond_wait`. */
  function Broadcast(s: State, t: nat): State {
    if t < |s.clients| && s.clients[t].Waiting? then At(s, t, Woken(s.clients[t].func, s.clients[t].job)) else s
  }

  function StepWorker(s: State): State
    requires Enabled(s, WorkerStep)
  {
    match s.worker
    case Resting => s.(worker := Locked, lock := Some(Worker))
    case Locked =>
      if s.funcs == [] then s.(worker := Popped(None))
      else s.(worker := Popped(Some(s.funcs[0])), funcs := s.funcs[1..])
    case Popped(None) => s.(worker := Resting, lock := None)
    case Popped(Some(job)) => s.(worker := Running(job, 0), lock := None, ran := s.ran + [job])
    case CallEnter(job, d, f) => s.(worker := CallLocked(job, d, f), lock := Some(Worker))
    case CallLocked(job, d, f) => Push(s, Job(f, None)).(worker := CallPushed(job, d))
    case CallPushed(job, d) => s.(worker := Running(job, d), lock := None)
    case Returned(job) => (if job.caller.Some? then Broadcast(s, job.caller.value) else s).(worker := Resting)
  }

  function Step(s: State, e: Event): State
    requires Enabled(s, e)
  {
    match e
    case CallAsync(t, f) => At(s, t, AsyncEnter(f))
    case CallSync(t, f) => At(s, t, SyncEnter(f))
    case ClientStep(t) => StepClient(s, t)
    case WorkerStep => StepWorker(s)
    case WorkerAsync(f) => s.(worker := CallEnter(s.worker.job, s.worker.depth, f))
    case WorkerSync => s.(worker := Running(s.worker.job, s.worker.depth + 1))
    case WorkerReturn =>
      if s.worker.depth > 0 then s.(worker := Running(s.worker.job, s.worker.depth - 1))
      else s.(worker := Returned(s.worker.job), done := s.done + [s.worker.job])
    case Spurious(t) => At(s, t, Woken(s.clients[t].func, s.clients[t].job))
  }

  /** The run of `es` from `s`, if every step is possible. */
  function Run(s: State, es: seq<Event>): Option<State>
    decreases |es|
  {
    if |es| == 0 then Some(s)
    else if Enabled(s, es[0]) then Run(Step(s, es[0]), es[1..])
    else None
  }

  ghost predicate Reachable(s: State) {
    exists n: nat, es: seq<Event> :: Run(Initial(n), es) == Some(s) && forall e <- es :: !e.Spurious?
  }

  // ---------------------------------------------------------------- what every step keeps

  predicate Holds(pc: ClientPc) {
    pc.AsyncLocked? || pc.AsyncPushed? || pc.SyncLocked? || pc.SyncPushed? || pc.SyncRelocked?
  }

  predicate WorkerHolds(pc: WorkerPc) {
    pc.Locked? || pc.Popped? || pc.CallLocked? || pc.CallPushed?
  }

  /** The mutex is held by the one thread that is between its lock and its unlock. */
  ghost predicate Exclusive(s: State) {
    && (s.lock == Some(Worker) <==> WorkerHolds(s.worker))
    && (forall t: nat {:trigger s.clients[t]} :: t < |s.clients| ==> (s.lock == Some(Client(t)) <==> Holds(s.clients[t])))
    && (s.lock.Some? && s.lock.value.Client? ==> s.lock.value.id < |s.clients|)
  }

  /** How many closures the worker has taken from the queue. */
  function Taken(s: State): nat {
    |s.ran| + if s.worker.Popped? && s.worker.fn.Some? then 1 else 0
  }

  function Current(w: WorkerPc): Option<Job> {
    match w
    case Resting => None
    case Locked => None
    case Popped(fn) => fn
    case Running(job, _) => Some(job)
    case CallEnter(job, _, _) => Some(job)
    case CallLocked(job, _, _) => Some(job)
    case CallPushed(job, _) => Some(job)
    case Returned(job) => Some(job)
  }

  predicate Executing(w: WorkerPc) {
    w.Running? || w.CallEnter? || w.CallLocked? || w.CallPushed?
  }

  /** First in, first out, and at most once: the logs are prefixes of one another. */
  ghost predicate Fifo(s: State) {
    && Taken(s) <= |s.pushed|
    && s.funcs == s.pushed[Taken(s)..]
    && s.ran == s.pushed[..|s.ran|]
    && |s.done| == |s.ran| - (if Executing(s.worker) then 1 else 0)
    && s.done == s.ran[..|s.done|]
    && (Current(s.worker).Some? ==> Taken(s) > 0 && Current(s.worker).value == s.pushed[Taken(s) - 1])
  }

  /** The closures that have not yet been broadcast are those from here on. */
  function Unsignalled(s: State): int {
    Taken(s) - if Current(s.worker).Some? then 1 else 0
  }

  /** A client inside `sync` is in step with its closure. */
  predicate InStep(s: State, t: nat)
    requires t < |s.clients|
  {
    match s.clients[t]
    case SyncPushed(f, j) => Taken(s) <= j < |s.pushed| && s.pushed[j] == Job(f, Some(t))
    case Waiting(f, j) => Unsignalled(s) <= j < |s.pushed| && s.pushed[j] == Job(f, Some(t))
    case Woken(f, j) => j < Unsignalled(s) && j < |s.done| && s.done[j] == Job(f, Some(t))
    case SyncRelocked(f, j) => j < Unsignalled(s) && j < |s.done| && s.done[j] == Job(f, Some(t))
    case SyncDone(f, j) => j < Unsignalled(s) && j < |s.done| && s.done[j] == Job(f, Some(t))
    case _ => true
  }

  /** Closure `j`, if it was queued by `sync` and not yet broadcast, has a caller that waits for it. */
  predicate Awaited(s: State, j: nat)
    requires j < |s.pushed|
  {
    match s.pushed[j]
    case Job(_, None) => true
    case Job(f, Some(t)) => t < |s.clients| && (s.clients[t] == SyncPushed(f, j) || s.clients[t] == Waiting(f, j))
  }

  ghost predicate Inv(s: State) {
    && Exclusive(s)
    && Fifo(s)
    && (forall t: nat {:trigger InStep(s, t)} :: t < |s.clients| ==> InStep(s, t))
    && (forall j: nat {:trigger Awaited(s, j)} :: Unsignalled(s) <= j < |s.pushed| ==> Awaited(s, j))
  }

  lemma InitialFifo(n: nat)
    ensures Fifo(Initial(n)) && Unsignalled(Initial(n)) == 0
  {
  }

  lemma InitialInv(n: nat)
    ensures Inv(Initial(n))
  {
    hide Fifo, Unsignalled, Taken, Run, Awaited;
    var s := Initial(n);
    InitialFifo(n);
    assert Exclusive(s) && s.pushed == [];
    forall t: nat | t < |s.clients| ensures InStep(s, t) { assert s.clients[t].Idle?; }
  }

  lemma CallInv(s: State, e: Event)
    requires Inv(s) && Enabled(s, e) && (e.CallAsync? || e.CallSync?)
    ensures Inv(Step(s, e))
  {
    var s' := Step(s, e);
    forall t: nat | t < |s'.clients| ensures InStep(s', t) { assert InStep(s, t); }
    forall j: nat | Unsignalled(s') <= j < |s'.pushed| ensures Awaited(s', j) { assert Awaited(s, j); }
  }

  lemma ClientExclusive(s: State, t: nat)
    requires Exclusive(s) && Enabled(s, ClientStep(t))
    ensures Exclusive(StepClient(s, t))
  {
  }

  /** What the logs do not depend on: the lock and the clients. */
  predicate SameLogs(s: State, s': State) {
    s'.funcs == s.funcs && s'.pushed == s.pushed && s'.ran == s.ran && s'.done == s.done && s'.worker == s.worker
  }

  lemma PushFifo(s: State, job: Job, s': State)
    requires Fifo(s) && SameLogs(Push(s, job), s')
    ensures Fifo(s') && Taken(s') == Taken(s) && Unsignalled(s') == Unsignalled(s)
    ensures s'.done == s.done && s.pushed <= s'.pushed && Unsignalled(s) <= Taken(s) <= |s.pushed|
  {
    hide Exclusive, Run;
    assert s'.pushed[Taken(s)..] == s.pushed[Taken(s)..] + [job];
    assert s'.pushed[..|s.ran|] == s.pushed[..|s.ran|];
  }

  lemma LogsFifo(s: State, s': State)
    requires Fifo(s) && SameLogs(s, s')
    ensures Fifo(s') && Taken(s') == Taken(s) && Unsignalled(s') == Unsignalled(s)
    ensures s'.done == s.done && s.pushed <= s'.pushed && Unsignalled(s) <= Taken(s) <= |s.pushed|
  {
    hide Exclusive, Run;
  }

  lemma ClientFifo(s: State, t: nat)
    requires Fifo(s) && Enabled(s, ClientStep(t))
    ensures Fifo(StepClient(s, t))
    ensures var s' := StepClient(s, t); Taken(s') == Taken(s) && Unsignalled(s') == Unsignalled(s) && s'.done == s.done
    ensures s.pushed <= StepClient(s, t).pushed && Unsignalled(s) <= Taken(s) <= |s.pushed|
  {
    hide Fifo, Taken, Unsignalled, Run;
    var pc, s' := s.clients[t], StepClient(s, t);
    if pc.AsyncLocked? {
      PushFifo(s, Job(pc.func, None), s');
    } else if pc.SyncLocked? {
      PushFifo(s, Job(pc.func, Some(t)), s');
    } else {
      LogsFifo(s, s');
    }
  }

  lemma InStepSame(s: State, s': State, u: nat)
    requires u < |s.clients| && u < |s'.clients| && s'.clients[u] == s.clients[u] && InStep(s, u)
    requires Taken(s') == Taken(s) && Unsignalled(s') == Unsignalled(s) && s'.done == s.done && s.pushed <= s'.pushed
    ensures InStep(s', u)
  {
    hide Taken, Unsignalled;
  }

  lemma ClientInStep(s: State, t: nat, u: nat)
    requires Inv(s) && Enabled(s, ClientStep(t)) && u < |s.clients|
    ensures InStep(StepClient(s, t), u)
  {
    hide Exclusive, Run, Awaited, Fifo, Taken;
    ClientFifo(s, t);
    assert InStep(s, t) && InStep(s, u);
    if u != t {
      InStepSame(s, StepClient(s, t), u);
    }
  }

  lemma ClientAwaited(s: State, t: nat, j: nat)
    requires Inv(s) && Enabled(s, ClientStep(t)) && Unsignalled(s) <= j < |StepClient(s, t).pushed|
    ensures Awaited(StepClient(s, t), j)
  {
    hide Exclusive, Run, Fifo, Taken, Unsignalled;
    ClientFifo(s, t);
    assert InStep(s, t);
    if j < |s.pushed| { assert Awaited(s, j); }
  }

  lemma ClientInv(s: State, t: nat)
    requires Inv(s) && Enabled(s, ClientStep(t))
    ensures Inv(StepClient(s, t))
  {
    hide Exclusive, Fifo, Awaited, InStep, Run;
    var s' := StepClient(s, t);
    ClientExclusive(s, t);
    ClientFifo(s, t);
    forall u: nat | u < |s'.clients| ensures InStep(s', u) { ClientInStep(s, t, u); }
    forall j: nat | Unsignalled(s') <= j < |s'.pushed| ensures Awaited(s', j) { ClientAwaited(s, t, j); }
  }

  lemma WorkerExclusive(s: State)
    requires Exclusive(s) && Enabled(s, WorkerStep)
    ensures Exclusive(StepWorker(s))
  {
  }

  lemma FrontTaken(funcs: seq<Job>, pushed: seq<Job>, k: nat)
    requires k <= |pushed| && funcs == pushed[k..] && funcs != []
    ensures k < |pushed| && funcs[0] == pushed[k] && funcs[1..] == pushed[k + 1..]
  {
  }

  lemma PopFifo(s: State)
    requires Fifo(s) && Enabled(s, WorkerStep) && s.worker.Locked?
    ensures Fifo(StepWorker(s))
  {
    hide Exclusive, Run;
    if s.funcs != [] { FrontTaken(s.funcs, s.pushed, Taken(s)); }
  }

  lemma StartFifo(s: State)
    requires Fifo(s) && Enabled(s, WorkerStep) && s.worker.Popped?
    ensures Fifo(StepWorker(s))
  {
    hide Exclusive, Run;
    var s' := StepWorker(s);
    if s.worker.fn.Some? {
      assert s'.ran == s.pushed[..|s'.ran|];
      assert s'.done == s'.ran[..|s'.done|];
    }
  }

  lemma WorkerFifo(s: State)
    requires Fifo(s) && Enabled(s, WorkerStep)
    ensures Fifo(StepWorker(s))
  {
    match s.worker {
      case Locked => PopFifo(s);
      case Popped(_) => StartFifo(s);
      case CallLocked(job, d, f) =>
        PushFifo(s, Job(f, None), Push(s, Job(f, None)));
      case _ => {}
    }
  }

  lemma OneHolder(s: State, u: nat)
    requires Exclusive(s) && u < |s.clients|
    ensures WorkerHolds(s.worker) ==> !Holds(s.clients[u])
  {
  }

  /** How the worker's step moves the two positions. */
  lemma WorkerMoves(s: State)
    requires Fifo(s) && Enabled(s, WorkerStep)
    ensures
      var s' := StepWorker(s);
      && Taken(s') == Taken(s) + (if s.worker.Locked? && s.funcs != [] then 1 else 0)
      && Unsignalled(s') == Unsignalled(s) + (if s.worker.Returned? then 1 else 0)
      && 0 <= Unsignalled(s) <= Taken(s) <= |s.pushed| && s.pushed <= s'.pushed && s'.done == s.done
      && (s.worker.Returned? ==> |s.done| == Taken(s) == Unsignalled(s) + 1 && s.done <= s.pushed
                                 && s.worker.job == s.pushed[Taken(s) - 1])
  {
    hide Exclusive, Run;
  }

  lemma WorkerInStep(s: State, u: nat)
    requires Inv(s) && Enabled(s, WorkerStep) && u < |s.clients|
    ensures InStep(StepWorker(s), u)
  {
    hide Run, Exclusive, Fifo, Taken, Unsignalled;
    assert InStep(s, u);
    OneHolder(s, u);
    WorkerMoves(s);
    if s.worker.Returned? {
      assert Awaited(s, Taken(s) - 1);
    } else {
      assert StepWorker(s).clients == s.clients;
    }
  }

  lemma WorkerAwaited(s: State, j: nat)
    requires Inv(s) && Enabled(s, WorkerStep) && Unsignalled(StepWorker(s)) <= j < |StepWorker(s).pushed|
    ensures Awaited(StepWorker(s), j)
  {
    hide Run, Exclusive, Fifo, Taken, Unsignalled;
    WorkerMoves(s);
    if j < |s.pushed| { assert Awaited(s, j); }
    if s.worker.Returned? {
      assert Awaited(s, Taken(s) - 1);
    }
  }

  lemma WorkerInv(s: State)
    requires Inv(s) && Enabled(s, WorkerStep)
    ensures Inv(StepWorker(s))
  {
    hide Exclusive, Fifo, Awaited, InStep, Run;
    var s' := StepWorker(s);
    WorkerExclusive(s);
    WorkerFifo(s);
    forall u: nat | u < |s'.clients| ensures InStep(s', u) { WorkerInStep(s, u); }
    forall j: nat | Unsignalled(s') <= j < |s'.pushed| ensures Awaited(s', j) { WorkerAwaited(s, j); }
  }

  lemma RunningInv(s: State, e: Event)
    requires Inv(s) && Enabled(s, e) && (e.WorkerAsync? || e.WorkerSync? || e.WorkerReturn?)
    ensures Inv(Step(s, e))
  {
    var s' := Step(s, e);
    forall u: nat | u < |s'.clients| ensures InStep(s', u) { assert InStep(s, u); }
    forall j: nat | Unsignalled(s') <= j < |s'.pushed| ensures Awaited(s', j) { assert Awaited(s, j); }
  }

  lemma StepInv(s: State, e: Event)
    requires Inv(s) && Enabled(s, e) && !e.Spurious?
    ensures Inv(Step(s, e))
  {
    match e
    case CallAsync(_, _) => CallInv(s, e);
    case CallSync(_, _) => CallInv(s, e);
    case ClientStep(t) => ClientInv(s, t);
    case WorkerStep => WorkerInv(s);
    case _ => RunningInv(s, e);
  }

  lemma {:induction false} RunInv(s: State, es: seq<Event>)
    requires Inv(s) && Run(s, es).Some? && forall e <- es :: !e.Spurious?
    ensures Inv(Run(s, es).value)
    decreases |es|
  {
    hide Inv;
    if |es| > 0 {
      StepInv(s, es[0]);
      RunInv(Step(s, es[0]), es[1..]);
    }
  }

  lemma ReachableInv(s: State)
    requires Reachable(s)
    ensures Inv(s)
  {
    hide Inv;
    var n: nat, es: seq<Event> :| Run(Initial(n), es) == Some(s) && forall e <- es :: !e.Spurious?;
    InitialInv(n);
    RunInv(Initial(n), es);
  }

  // ---------------------------------------------------------------- safety

  lemma MutualExclusion(s: State, t: nat, u: nat)
    requires Reachable(s) && t < |s.clients| && u < |s.clients| && Holds(s.clients[t])
    ensures !WorkerHolds(s.worker)
    ensures Holds(s.clients[u]) ==> u == t
  {
    ReachableInv(s);
  }

  /** Functions start in the order they were queued, none twice, and each returns before the next one starts. */
  lemma FirstInFirstOut(s: State)
    requires Reachable(s)
    ensures s.done <= s.ran <= s.pushed && |s.ran| <= |s.done| + 1
    ensures s.ran + (if s.worker.Popped? && s.worker.fn.Some? then [s.worker.fn.value] else []) + s.funcs == s.pushed
  {
    ReachableInv(s);
  }

  /** When the worker is about to broadcast for a `sync`, its caller is already waiting, for this very closure. */
  lemma NoLostWakeup(s: State, f: nat, t: nat)
    requires Reachable(s) && s.worker == Returned(Job(f, Some(t)))
    ensures t < |s.clients| && |s.done| > 0 && s.clients[t] == Waiting(f, |s.done| - 1)
    ensures Step(s, WorkerStep).clients[t] == Woken(f, |s.done| - 1)
  {
    ReachableInv(s);
    assert Awaited(s, Taken(s) - 1);
    assert InStep(s, t);
  }

  /** A `sync` from another thread returns only after the function it was given has run and returned. */
  lemma SyncReturnsAfterRun(s: State, t: nat, f: nat, j: nat)
    requires Reachable(s) && t < |s.clients| && s.clients[t] == SyncDone(f, j)
    ensures j < |s.done| && s.done[j] == Job(f, Some(t))
  {
    ReachableInv(s);
    assert InStep(s, t);
  }

  lemma RunNext(s: State, e: Event, es: seq<Event>)
    requires Enabled(s, e)
    ensures Run(s, [e] + es) == Run(Step(s, e), es)
  {
    hide Step;
    assert ([e] + es)[1..] == es;
  }

  /** One client, whose one closure is queued. */
  function Lone(pc: ClientPc, lock: Option<Thread>): State {
    State(lock, [Job(7, Some(0))], [pc], Resting, [Job(7, Some(0))], [], [])
  }

  lemma LoneStep(pc: ClientPc, lock: Option<Thread>, e: Event, pc': ClientPc, lock': Option<Thread>, es: seq<Event>)
    requires Enabled(Lone(pc, lock), e) && Step(Lone(pc, lock), e) == Lone(pc', lock')
    ensures Run(Lone(pc, lock), [e] + es) == Run(Lone(pc', lock'), es)
  {
    RunNext(Lone(pc, lock), e, es);
  }

  /**
   * `pthread_cond_wait` may also return without a broadcast, and the code does not test for that: wherever a client
   * waits while the mutex is free, a spurious wakeup and two steps of its own take it out of `sync`, and no function
   * has run in between.
   */
  lemma SpuriousReturns(s: State, t: nat)
    requires t < |s.clients| && s.clients[t].Waiting? && s.lock == None
    ensures Run(s, [Spurious(t), ClientStep(t), ClientStep(t)])
      == Some(At(s, t, SyncDone(s.clients[t].func, s.clients[t].job)))
  {
    var f, j := s.clients[t].func, s.clients[t].job;
    var s1 := At(s, t, Woken(f, j));
    var s2 := At(s, t, SyncRelocked(f, j)).(lock := Some(Client(t)));
    assert Step(s, Spurious(t)) == s1;
    assert Step(s1, ClientStep(t)) == s2;
    assert Step(s2, ClientStep(t)) == At(s, t, SyncDone(f, j));
    RunNext(s2, ClientStep(t), []);
    RunNext(s1, ClientStep(t), [ClientStep(t)]);
    RunNext(s, Spurious(t), [ClientStep(t), ClientStep(t)]);
    assert [Spurious(t)] + [ClientStep(t), ClientStep(t)] == [Spurious(t), ClientStep(t), ClientStep(t)];
    assert [ClientStep(t)] + [ClientStep(t)] == [ClientStep(t), ClientStep(t)];
    assert [ClientStep(t)] + [] == [ClientStep(t)];
  }

  /** A client waits for a function that has returned only in the moment before the worker's broadcast for it. */
  lemma WaitingPast(s: State, t: nat)
    requires Reachable(s) && t < |s.clients| && s.clients[t].Waiting?
    ensures s.clients[t].job < |s.done| <==> s.worker == Returned(Job(s.clients[t].func, Some(t)))
  {
    ReachableInv(s);
    assert InStep(s, t);
    var f, j := s.clients[t].func, s.clients[t].job;
    if s.worker == Returned(Job(f, Some(t))) {
      assert Awaited(s, Taken(s) - 1);
    }
  }

  /**
   * So in every reachable state with a client waiting and the mutex free, what `SyncReturnsAfterRun` promises holds
   * after such a wakeup only if the worker stands between this client's function and the broadcast for it.
   */
  lemma SpuriousBreaksIff(s: State, t: nat)
    requires Reachable(s) && t < |s.clients| && s.clients[t].Waiting? && s.lock == None
    ensures
      var f, j := s.clients[t].func, s.clients[t].job;
      var r := Run(s, [Spurious(t), ClientStep(t), ClientStep(t)]);
      && r.Some? && t < |r.value.clients| && r.value.clients[t] == SyncDone(f, j) && r.value.done == s.done
      && ((j < |r.value.done| && r.value.done[j] == Job(f, Some(t))) <==> s.worker == Returned(Job(f, Some(t))))
  {
    ReachableInv(s);
    assert InStep(s, t);
    WaitingPast(s, t);
    SpuriousReturns(s, t);
  }

  /** From the start: `sync` returns while its function is still in the queue. */
  lemma SpuriousWakeup() returns (es: seq<Event>)
    ensures Run(Initial(1), es) == Some(Lone(SyncDone(7, 0), None))
  {
    var waiting, step := Lone(Waiting(7, 0), None), ClientStep(0);
    var last := [Spurious(0), step, step];
    LoneStep(SyncPushed(7, 0), Some(Client(0)), step, Waiting(7, 0), None, last);
    SpuriousReturns(waiting, 0);
    assert At(waiting, 0, SyncDone(7, 0)) == Lone(SyncDone(7, 0), None);
    es := QueueOne([step] + last);
  }

  lemma QueueOne(es: seq<Event>) returns (es': seq<Event>)
    ensures Run(Initial(1), es') == Run(Lone(SyncPushed(7, 0), Some(Client(0))), es)
  {
    var step := ClientStep(0);
    var s0 := Initial(1);
    var s1 := s0.(clients := [SyncEnter(7)]);
    var s2 := s1.(clients := [SyncLocked(7)], lock := Some(Client(0)));
    assert Step(s2, step) == Lone(SyncPushed(7, 0), Some(Client(0)));
    RunNext(s2, step, es);
    assert Step(s1, step) == s2;
    RunNext(s1, step, [step] + es);
    assert Step(s0, CallSync(0, 7)) == s1;
    RunNext(s0, CallSync(0, 7), [step] + ([step] + es));
    es' := [CallSync(0, 7)] + ([step] + ([step] + es));
  }

  // ---------------------------------------------------------------- progress

  /** No call is under way and every closure has run. */
  predicate Quiet(s: State) {
    s.funcs == [] && s.worker == Resting && forall t :: 0 <= t < |s.clients| ==> s.clients[t].Idle?
  }

  /** A step that finishes something: no new call, and no tick of the worker's timer on an empty queue. */
  predicate Finishing(s: State, e: Event) {
    e.ClientStep? || e.WorkerReturn? || (e.WorkerStep? && !(s.worker.Resting? && s.funcs == []))
  }

  function ClientWork(pc: ClientPc): nat {
    match pc
    case Idle => 0
    case AsyncEnter(_) => 13
    case AsyncLocked(_) => 12
    case AsyncPushed => 1
    case SyncEnter(_) => 17
    case SyncLocked(_) => 16
    case SyncPushed(_, _) => 5
    case Waiting(_, _) => 4
    case Woken(_, _) => 3
    case SyncRelocked(_, _) => 2
    case SyncDone(_, _) => 1
  }

  function ClientsWork(pcs: seq<ClientPc>): nat {
    if |pcs| == 0 then 0 else ClientsWork(pcs[..|pcs| - 1]) + ClientWork(pcs[|pcs| - 1])
  }

  function WorkerWork(s: State): int {
    match s.worker
    case Resting => 0
    case Locked => if s.funcs == [] then 2 else -1
    case Popped(None) => 1
    case Popped(Some(_)) => 8
    case Running(_, d) => 3 + d
    case CallEnter(_, d, _) => 16 + d
    case CallLocked(_, d, _) => 15 + d
    case CallPushed(_, d) => 4 + d
    case Returned(_) => 2
  }

  /** What is still to be done. */
  function Work(s: State): int {
    ClientsWork(s.clients) + 10 * |s.funcs| + WorkerWork(s)
  }

  lemma {:induction false} ClientsWorkUpdate(pcs: seq<ClientPc>, t: nat, pc: ClientPc)
    requires t < |pcs|
    ensures ClientsWork(pcs[t := pc]) == ClientsWork(pcs) - ClientWork(pcs[t]) + ClientWork(pc)
  {
    var n := |pcs| - 1;
    if t < n {
      assert pcs[t := pc][..n] == pcs[..n][t := pc];
      ClientsWorkUpdate(pcs[..n], t, pc);
    } else {
      assert pcs[t := pc][..n] == pcs[..n];
    }
  }

  lemma ClientLowersWork(s: State, t: nat)
    requires Enabled(s, ClientStep(t))
    ensures ClientsWork(StepClient(s, t).clients) + 10 * |StepClient(s, t).funcs| < ClientsWork(s.clients) + 10 * |s.funcs|
    ensures WorkerWork(StepClient(s, t)) == WorkerWork(s) || (s.worker.Locked? && Holds(s.clients[t]))
  {
    hide ClientsWork;
    ClientsWorkUpdate(s.clients, t, StepClient(s, t).clients[t]);
  }

  lemma WorkerLowersWork(s: State)
    requires Inv(s) && Enabled(s, WorkerStep) && Finishing(s, WorkerStep)
    ensures Work(StepWorker(s)) < Work(s)
  {
    hide Exclusive, Run, ClientsWork, Fifo;
    WorkerMoves(s);
    if s.worker.Returned? && s.worker.job.caller.Some? {
      assert Awaited(s, Taken(s) - 1);
      var t := s.worker.job.caller.value;
      ClientsWorkUpdate(s.clients, t, StepWorker(s).clients[t]);
    }
  }

  lemma WorkNotNegative(s: State)
    ensures 0 <= Work(s)
  {
  }

  /** Work is never negative, and every finishing step lowers it: no call can be kept waiting forever. */
  lemma FinishingLowersWork(s: State, e: Event)
    requires Inv(s) && Enabled(s, e) && Finishing(s, e)
    ensures 0 <= Work(Step(s, e)) < Work(s)
  {
    hide ClientsWork, Fifo, Run;
    WorkNotNegative(Step(s, e));
    match e {
      case ClientStep(t) =>
        OneHolder(s, t);
        ClientLowersWork(s, t);
      case WorkerStep => WorkerLowersWork(s);
      case WorkerReturn => {}
    }
  }

  /** No deadlock: as long as a call is under way or a closure is queued, some thread can take a finishing step. */
  lemma NoDeadlock(s: State) returns (e: Event)
    requires Inv(s) && !Quiet(s)
    ensures Enabled(s, e) && Finishing(s, e)
  {
    if s.worker.Running? {
      return WorkerReturn;
    } else if s.lock == Some(Worker) || s.worker.Returned? {
      return WorkerStep;
    } else if s.lock.Some? {
      return ClientStep(s.lock.value.id);
    } else if s.worker.CallEnter? || s.funcs != [] {
      return WorkerStep;
    }
    var t: nat :| t < |s.clients| && !s.clients[t].Idle?;
    assert InStep(s, t);
    return ClientStep(t);
  }

  /** From every reachable state the calls under way can all be finished, and every queued function has then run. */
  lemma {:induction false} Finishes(s: State) returns (es: seq<Event>)
    requires Inv(s)
    ensures forall e <- es :: e.ClientStep? || e.WorkerStep? || e.WorkerReturn?
    ensures Run(s, es).Some?
    ensures Quiet(Run(s, es).value) && Run(s, es).value.done == Run(s, es).value.pushed
    decreases Work(s)
  {
    WorkNotNegative(s);
    if Quiet(s) {
      es := [];
    } else {
      hide *;
      var e := NoDeadlock(s);
      FinishingLowersWork(s, e);
      StepInv(s, e);
      var rest := Finishes(Step(s, e));
      RunNext(s, e, rest);
      es := [e] + rest;
    }
  }

  // ---------------------------------------------------------------- nothing is lost, and nothing made up

  function Times(o: Option<Job>, job: Job): nat {
    if o == Some(job) then 1 else 0
  }

  /** What an event asks to be run on the queue. */
  function AskedBy(e: Event): Option<Job> {
    match e
    case CallAsync(_, f) => Some(Job(f, None))
    case CallSync(t, f) => Some(Job(f, Some(t)))
    case WorkerAsync(f) => Some(Job(f, None))
    case _ => None
  }

  /** How often `job` is asked for. */
  function Asked(es: seq<Event>, job: Job): nat {
    if |es| == 0 then 0 else Times(AskedBy(es[0]), job) + Asked(es[1..], job)
  }

  /** What client `t` is still going to push. */
  function Ahead(t: nat, pc: ClientPc): Option<Job> {
    match pc
    case AsyncEnter(f) => Some(Job(f, None))
    case AsyncLocked(f) => Some(Job(f, None))
    case SyncEnter(f) => Some(Job(f, Some(t)))
    case SyncLocked(f) => Some(Job(f, Some(t)))
    case _ => None
  }

  function AllAhead(pcs: seq<ClientPc>, job: Job): nat {
    if |pcs| == 0 then 0
    else AllAhead(pcs[..|pcs| - 1], job) + Times(Ahead(|pcs| - 1, pcs[|pcs| - 1]), job)
  }

  function WorkerAhead(pc: WorkerPc): Option<Job> {
    match pc
    case CallEnter(_, _, f) => Some(Job(f, None))
    case CallLocked(_, _, f) => Some(Job(f, None))
    case _ => None
  }

  /** How often `job` has been pushed, or is going to be. */
  function Accounted(s: State, job: Job): nat {
    multiset(s.pushed)[job] + AllAhead(s.clients, job) + Times(WorkerAhead(s.worker), job)
  }

  lemma {:induction false} AheadUpdate(pcs: seq<ClientPc>, t: nat, pc: ClientPc, job: Job)
    requires t < |pcs|
    ensures AllAhead(pcs[t := pc], job) + Times(Ahead(t, pcs[t]), job) == AllAhead(pcs, job) + Times(Ahead(t, pc), job)
  {
    hide Ahead;
    var n := |pcs| - 1;
    if t < n {
      assert pcs[t := pc][..n] == pcs[..n][t := pc];
      AheadUpdate(pcs[..n], t, pc, job);
    } else {
      assert pcs[t := pc][..n] == pcs[..n];
    }
  }

  lemma {:induction false} NoneAhead(pcs: seq<ClientPc>, job: Job)
    requires forall pc <- pcs :: pc.Idle?
    ensures AllAhead(pcs, job) == 0
  {
    if |pcs| > 0 {
      NoneAhead(pcs[..|pcs| - 1], job);
      assert pcs[|pcs| - 1] in pcs;
    }
  }

  lemma Pushed(jobs: seq<Job>, new_: Job, job: Job)
    ensures multiset(jobs + [new_])[job] == multiset(jobs)[job] + Times(Some(new_), job)
  {
  }

  /** A client step is of one client, which pushes what it had ahead, or has the same ahead as before. */
  lemma ClientPushes(s: State, t: nat)
    requires Enabled(s, ClientStep(t))
    ensures
      var s', a := StepClient(s, t), Ahead(t, s.clients[t]);
      && s'.worker == s.worker && |s'.clients| == |s.clients| && s'.clients == s.clients[t := s'.clients[t]]
      && (if s'.pushed == s.pushed then Ahead(t, s'.clients[t]) == a
          else a.Some? && s'.pushed == s.pushed + [a.value] && Ahead(t, s'.clients[t]) == None)
  {
  }

  lemma ClientAccounted(s: State, t: nat, job: Job)
    requires Enabled(s, ClientStep(t))
    ensures Accounted(StepClient(s, t), job) == Accounted(s, job)
  {
    hide AllAhead, StepClient, Ahead;
    var s', a := StepClient(s, t), Ahead(t, s.clients[t]);
    ClientPushes(s, t);
    AheadUpdate(s.clients, t, s'.clients[t], job);
    if s'.pushed != s.pushed {
      Pushed(s.pushed, a.value, job);
    }
  }

  lemma WorkerAccounted(s: State, job: Job)
    requires Enabled(s, WorkerStep)
    ensures Accounted(StepWorker(s), job) == Accounted(s, job)
  {
    hide AllAhead;
    if s.worker.Returned? && s.worker.job.caller.Some? && s.worker.job.caller.value < |s.clients| {
      var t := s.worker.job.caller.value;
      AheadUpdate(s.clients, t, StepWorker(s).clients[t], job);
      assert StepWorker(s).clients == s.clients[t := StepWorker(s).clients[t]];
    }
    if s.worker.CallLocked? { Pushed(s.pushed, Job(s.worker.func, None), job); }
  }

  /** A step accounts for exactly what it asks for. */
  lemma StepAccounted(s: State, e: Event, job: Job)
    requires Enabled(s, e)
    ensures Accounted(Step(s, e), job) == Accounted(s, job) + Times(AskedBy(e), job)
  {
    hide AllAhead, StepClient, StepWorker;
    match e
    case CallAsync(t, f) => AheadUpdate(s.clients, t, AsyncEnter(f), job);
    case CallSync(t, f) => AheadUpdate(s.clients, t, SyncEnter(f), job);
    case ClientStep(t) => ClientAccounted(s, t, job);
    case WorkerStep => WorkerAccounted(s, job);
    case Spurious(t) => AheadUpdate(s.clients, t, Woken(s.clients[t].func, s.clients[t].job), job);
    case _ =>
  }

  lemma {:induction false} RunAccounted(s: State, es: seq<Event>, job: Job)
    requires Run(s, es).Some?
    ensures Accounted(Run(s, es).value, job) == Accounted(s, job) + Asked(es, job)
    decreases |es|
  {
    hide Accounted, AskedBy, Step, Enabled;
    if |es| > 0 {
      StepAccounted(s, es[0], job);
      RunAccounted(Step(s, es[0]), es[1..], job);
    }
  }

  /** Whatever the threads do, what has been pushed or is going to be is exactly what was asked for. */
  lemma NothingLost(n: nat, es: seq<Event>, job: Job)
    requires Run(Initial(n), es).Some?
    ensures Accounted(Run(Initial(n), es).value, job) == Asked(es, job)
  {
    RunAccounted(Initial(n), es, job);
    NoneAhead(Initial(n).clients, job);
  }

  /** Once all is quiet, exactly what was asked for has run to its end, each function as often as it was asked for. */
  lemma AllRun(n: nat, es: seq<Event>, job: Job)
    requires Run(Initial(n), es).Some? && forall e <- es :: !e.Spurious?
    requires Quiet(Run(Initial(n), es).value)
    ensures multiset(Run(Initial(n), es).value.done)[job] == Asked(es, job)
  {
    var s := Run(Initial(n), es).value;
    NothingLost(n, es, job);
    NoneAhead(s.clients, job);
    hide Run;
    assert Reachable(s);
    ReachableInv(s);
    QuietDone(s);
  }

  lemma {:induction false} RunConcat(s: State, es: seq<Event>, more: seq<Event>)
    requires Run(s, es).Some?
    ensures Run(s, es + more) == Run(Run(s, es).value, more)
    decreases |es|
  {
    hide Step, Enabled;
    if |es| > 0 {
      RunConcat(Step(s, es[0]), es[1..], more);
      assert (es + more)[1..] == es[1..] + more;
    } else {
      assert es + more == more;
    }
  }

  lemma {:induction false} AskedConcat(es: seq<Event>, more: seq<Event>, job: Job)
    requires forall e <- more :: AskedBy(e) == None
    ensures Asked(es + more, job) == Asked(es, job)
    decreases |es|
  {
    if |es| > 0 {
      AskedConcat(es[1..], more, job);
      assert (es + more)[1..] == es[1..] + more;
    } else {
      assert es + more == more;
      NothingAsked(more, job);
    }
  }

  lemma {:induction false} NothingAsked(es: seq<Event>, job: Job)
    requires forall e <- es :: AskedBy(e) == None
    ensures Asked(es, job) == 0
  {
    if |es| > 0 {
      assert es[0] in es;
      NothingAsked(es[1..], job);
    }
  }

  /** Every run can be brought to its end, and then exactly what was asked for in it has run. */
  lemma AllWillRun(n: nat, es: seq<Event>) returns (rest: seq<Event>)
    requires Run(Initial(n), es).Some? && forall e <- es :: !e.Spurious?
    ensures forall e <- rest :: e.ClientStep? || e.WorkerStep? || e.WorkerReturn?
    ensures Run(Initial(n), es + rest).Some? && Quiet(Run(Initial(n), es + rest).value)
    ensures forall job :: multiset(Run(Initial(n), es + rest).value.done)[job] == Asked(es, job)
  {
    hide Run, Quiet, Inv;
    var s := Run(Initial(n), es).value;
    assert Reachable(s);
    ReachableInv(s);
    rest := Finishes(s);
    RunConcat(Initial(n), es, rest);
    forall job ensures multiset(Run(Initial(n), es + rest).value.done)[job] == Asked(es, job) {
      AllRun(n, es + rest, job);
      AskedConcat(es, rest, job);
    }
  }

  lemma QuietDone(s: State)
    requires Inv(s) && Quiet(s)
    ensures s.done == s.pushed
  {
  }

  /** The logs only grow, each at its end. */
  lemma LogsGrow(s: State, e: Event)
    requires Enabled(s, e)
    ensures s.pushed <= Step(s, e).pushed && s.ran <= Step(s, e).ran && s.done <= Step(s, e).done
  {
  }

  /** A `sync` on the queue's own thread runs inline: a function returns once all of those inside it have. */
  function Syncs(es: seq<Event>): nat {
    if |es| == 0 then 0 else (if es[0].WorkerSync? then 1 else 0) + Syncs(es[1..])
  }

  function Returns(es: seq<Event>): nat {
    if |es| == 0 then 0 else (if es[0].WorkerReturn? then 1 else 0) + Returns(es[1..])
  }

  function Inside(pc: WorkerPc): nat {
    match pc
    case Running(_, d) => d
    case CallEnter(_, d, _) => d
    case CallLocked(_, d, _) => d
    case CallPushed(_, d) => d
    case _ => 0
  }

  lemma {:induction false} RunNested(s: State, es: seq<Event>)
    requires Run(s, es).Some?
    ensures
      var r := Run(s, es).value;
      |r.done| + Inside(s.worker) + Syncs(es) == |s.done| + Inside(r.worker) + Returns(es)
    decreases |es|
  {
    if |es| > 0 {
      StepNested(s, es[0]);
      hide Step, Enabled, Inside;
      RunNested(Step(s, es[0]), es[1..]);
    }
  }

  lemma StepNested(s: State, e: Event)
    requires Enabled(s, e)
    ensures
      var s' := Step(s, e);
      |s'.done| + Inside(s.worker) + (if e.WorkerSync? then 1 else 0)
        == |s.done| + Inside(s'.worker) + (if e.WorkerReturn? then 1 else 0)
  {
  }

  /** From the start, as many functions have returned as calls have, less the inline ones that have ended. */
  lemma NestedReturns(n: nat, es: seq<Event>)
    requires Run(Initial(n), es).Some?
    ensures var s := Run(Initial(n), es).value; |s.done| + Syncs(es) == Inside(s.worker) + Returns(es)
  {
    RunNested(Initial(n), es);
  }

  /** What may be done at any time: an idle client may call, and a running function may call or return. */
  lemma CallsPossible(s: State, t: nat, f: nat)
    ensures t < |s.clients| && s.clients[t].Idle? ==> Enabled(s, CallAsync(t, f)) && Enabled(s, CallSync(t, f))
    ensures s.worker.Running? ==> Enabled(s, WorkerAsync(f)) && Enabled(s, WorkerSync) && Enabled(s, WorkerReturn)
  {
  }

  /**
   * While the mutex is free every client can go on that is inside a call and does not wait, and so can the worker unless
   * a function runs; the thread that holds the mutex always can.
   */
  lemma StepsPossible(s: State, t: nat)
    ensures s.lock == None && t < |s.clients| ==> (Enabled(s, ClientStep(t)) <==> !s.clients[t].Idle? && !s.clients[t].Waiting?)
    ensures s.lock == None ==> (Enabled(s, WorkerStep) <==> !s.worker.Running?)
    ensures Exclusive(s) && s.lock == Some(Client(t)) ==> Enabled(s, ClientStep(t))
    ensures Exclusive(s) && s.lock == Some(Worker) ==> Enabled(s, WorkerStep)
  {
  }
}
