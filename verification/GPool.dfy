/** The worker pool, `common/pool/gpool/pool.go` and `worker.go`: callers of `Submit`, the
    workers' goroutines and callers of `Close`, interleaved at their atomic steps. As `Submit`
    demands of its callers, it does not run concurrently with the `Close` that shuts down. */
module GPool {

  import opened Basics

  /** What becomes of calling a job's handler; there may be none to call. */
  datatype Handler = NoHandler | Returns | Fails | Panics

  /** `workerId` is the caller's routing key. */
  datatype Job = Job(id: nat, workerId: int, handler: Handler)

  /** `rest` says that the worker has been stopped and executes what is left. */
  datatype WorkerPc =
    | Serving                                // at the select
    | Draining                               // stopped; both channels closed
    | Executing(job: Job, rest: bool)        // in execute
    | InHandler(job: Job, rest: bool)
    | Unwinding(job: Job, rest: bool)        // the handler has panicked
    | Exited                                 // wg.Done

  datatype Worker = Worker(
    pc: WorkerPc, queue: seq<Job>,
    finished: seq<Job>,                      // jobs whose execute has returned
    calls: seq<Job>,                         // jobs whose handler has been called
    recovered: seq<Job>)                     // jobs whose panic has been recovered
  {
    /** Taken and not finished. */
    function InHand(): seq<Job> {
      if pc.Executing? || pc.InHandler? || pc.Unwinding? then [pc.job] else []
    }

    /** Called and not finished. */
    function InCall(): seq<Job> {
      if pc.InHandler? || pc.Unwinding? then [pc.job] else []
    }

    predicate IsStopped() {
      pc == Draining || pc == Exited || ((pc.Executing? || pc.InHandler? || pc.Unwinding?) && pc.rest)
    }

    /** Everything the worker ever got, in the order in which it executes it. */
    function Lot(): seq<Job> {
      finished + InHand() + queue
    }
  }

  /** What a worker's goroutine does next, `worker.go`. */
  datatype Move = Take | SkipNil | CallHandler | HandlerReturns | HandlerPanics | Recover | Exit

  predicate CanMove(worker: Worker, move: Move) {
    match move
    case Take => (worker.pc == Serving || worker.pc == Draining) && worker.queue != []
    case SkipNil => worker.pc.Executing? && worker.pc.job.handler == NoHandler
    case CallHandler => worker.pc.Executing? && worker.pc.job.handler != NoHandler
    case HandlerReturns => worker.pc.InHandler? && worker.pc.job.handler != Panics
    case HandlerPanics => worker.pc.InHandler? && worker.pc.job.handler == Panics
    case Recover => worker.pc.Unwinding?
    case Exit => worker.pc == Draining && worker.queue == []
  }

  /** The job in hand is done with. */
  function Done(worker: Worker): Worker
    requires worker.InHand() != []
  {
    worker.(pc := if worker.pc.rest then Draining else Serving, finished := worker.finished + [worker.pc.job])
  }

  function Moved(worker: Worker, move: Move): Worker
    requires CanMove(worker, move)
  {
    match move
    case Take => worker.(pc := Executing(worker.queue[0], worker.pc == Draining), queue := worker.queue[1..])
    case SkipNil => Done(worker)
    case CallHandler =>
      worker.(pc := InHandler(worker.pc.job, worker.pc.rest), calls := worker.calls + [worker.pc.job])
    case HandlerReturns => Done(worker)
    case HandlerPanics => worker.(pc := Unwinding(worker.pc.job, worker.pc.rest))
    case Recover => Done(worker).(recovered := worker.recovered + [worker.pc.job])
    case Exit => worker.(pc := Exited)
  }

  /** The call of Close that changes the status. */
  datatype Closer = NotClosed | Stopping(next: nat) | Waiting | Returned

  datatype Pool = Pool(
    queueSize: nat,
    workers: seq<Worker>,
    closer: Closer,
    submitting: map<nat, (Job, nat)>,   // callers inside Submit, and the worker they send to
    submitted: seq<(Job, nat)>,         // sends that went through: Submit returns with success
    wg: int)

  predicate Init(s: Pool) {
    && |s.workers| > 0
    && (forall w :: 0 <= w < |s.workers| ==> s.workers[w] == Worker(Serving, [], [], [], []))
    && s == Pool(s.queueSize, s.workers, NotClosed, map[], [], |s.workers|)
  }

  /** `NewPool` has at least one worker, and a queue size is never negative. */
  function NewPool(capacity: int, jobQueueSize: int): (s: Pool)
    ensures Init(s)
    ensures |s.workers| == (if capacity > 0 then capacity else 1)
    ensures s.queueSize == (if jobQueueSize > 0 then jobQueueSize else 0)
  {
    var n := if capacity <= 0 then 1 else capacity;
    Pool(if jobQueueSize < 0 then 0 else jobQueueSize, seq(n, _ => Worker(Serving, [], [], [], [])), NotClosed, map[], [], n)
  }

  /** The jobs that went to worker `w`. */
  function OnWorker(submitted: seq<(Job, nat)>, w: nat): seq<Job> {
    if submitted == [] then []
    else
      var (job, to) := submitted[|submitted| - 1];
      OnWorker(submitted[..|submitted| - 1], w) + (if to == w then [job] else [])
  }

  /** The jobs with routing key `key`. */
  function WithKey(jobs: seq<Job>, key: int): seq<Job> {
    if jobs == [] then []
    else
      var job := jobs[|jobs| - 1];
      WithKey(jobs[..|jobs| - 1], key) + (if job.workerId == key then [job] else [])
  }

  function Jobs(submitted: seq<(Job, nat)>): seq<Job> {
    seq(|submitted|, i requires 0 <= i < |submitted| => submitted[i].0)
  }

  /** `Submit` routes a key to one worker; without a key any worker will do. */
  predicate Routes(capacity: nat, job: Job, w: nat) {
    w < capacity && (job.workerId >= 0 ==> w == job.workerId % capacity)
  }

  function SetWorker(s: Pool, w: nat, worker: Worker): Pool
    requires w < |s.workers|
  {
    s.(workers := s.workers[w := worker])
  }

  // ---------------------------------------------------------------------------
  // Atomic steps
  // ---------------------------------------------------------------------------

  datatype Step =
    | CallSubmit(n: nat, job: Job, w: nat)  // passes the status check, or returns at once
    | Send(n: nat)                          // into the buffer
    | HandOver(n: nat)                      // to a worker that waits, past an empty buffer
    | Work(w: nat, move: Move)
    | CallClose                             // wins the compare-and-swap, or returns at once
    | Stop                                  // the rendezvous on the next stopChan
    | WaitReturns

  predicate Enabled(s: Pool, step: Step) {
    match step
    case CallSubmit(n, job, w) => n !in s.submitting && Routes(|s.workers|, job, w)
    case Send(n) =>
      n in s.submitting && s.submitting[n].1 < |s.workers|
      && |s.workers[s.submitting[n].1].queue| < s.queueSize
    case HandOver(n) =>
      n in s.submitting && s.submitting[n].1 < |s.workers|
      && s.workers[s.submitting[n].1].pc == Serving && s.workers[s.submitting[n].1].queue == []
    case Work(w, move) => w < |s.workers| && CanMove(s.workers[w], move)
    case CallClose => s.closer == NotClosed ==> s.submitting == map[]
    case Stop =>
      s.closer.Stopping? && (s.closer.next < |s.workers| ==> s.workers[s.closer.next].pc == Serving)
    case WaitReturns => s.closer == Waiting && s.wg == 0
  }

  function Do(s: Pool, step: Step): Pool
    requires Enabled(s, step)
  {
    match step
    case CallSubmit(n, job, w) =>
      if s.closer == NotClosed then s.(submitting := s.submitting[n := (job, w)]) else s
    case Send(n) =>
      var (job, w) := s.submitting[n];
      var worker := s.workers[w];
      SetWorker(s, w, worker.(queue := worker.queue + [job]))
      .(submitting := s.submitting - {n}, submitted := s.submitted + [(job, w)])
    case HandOver(n) =>
      var (job, w) := s.submitting[n];
      SetWorker(s, w, s.workers[w].(pc := Executing(job, false)))
      .(submitting := s.submitting - {n}, submitted := s.submitted + [(job, w)])
    case Work(w, move) =>
      SetWorker(s, w, Moved(s.workers[w], move)).(wg := if move == Exit then s.wg - 1 else s.wg)
    case CallClose => if s.closer == NotClosed then s.(closer := Stopping(0)) else s
    case Stop =>
      var w := s.closer.next;
      if w < |s.workers| then SetWorker(s, w, s.workers[w].(pc := Draining)).(closer := Stopping(w + 1))
      else s.(closer := Waiting)
    case WaitReturns => s.(closer := Returned)
  }

  ghost predicate Next(s: Pool, s': Pool) {
    exists step :: Enabled(s, step) && s' == Do(s, step)
  }

  ghost predicate StepAt(run: seq<Pool>, i: nat)
    requires i + 1 < |run|
  {
    Next(run[i], run[i + 1])
  }

  ghost predicate Execution(run: seq<Pool>) {
    && run != [] && Init(run[0])
    && forall i :: 0 <= i < |run| - 1 ==> StepAt(run, i)
  }

  // ---------------------------------------------------------------------------
  // The invariant
  // ---------------------------------------------------------------------------

  /** How many workers have been told to stop. */
  function Stopped(s: Pool): nat {
    match s.closer
    case NotClosed => 0
    case Stopping(next) => next
    case _ => |s.workers|
  }

  const CALLED: set<Handler> := {Returns, Fails, Panics}

  /** The jobs whose handler is one of these. */
  function ByHandler(jobs: seq<Job>, handlers: set<Handler>): seq<Job> {
    if jobs == [] then []
    else
      var job := jobs[|jobs| - 1];
      ByHandler(jobs[..|jobs| - 1], handlers) + (if job.handler in handlers then [job] else [])
  }

  /** The worker has its lot, has called each handler there is once, and has recovered from each
      panic. */
  predicate WorkerInv(worker: Worker, lot: seq<Job>, stopped: bool) {
    && worker.Lot() == lot
    && worker.calls == ByHandler(worker.finished, CALLED) + worker.InCall()
    && worker.recovered == ByHandler(worker.finished, {Panics})
    && (worker.pc.InHandler? ==> worker.pc.job.handler in CALLED)
    && (worker.pc.Unwinding? ==> worker.pc.job.handler == Panics)
    && (stopped <==> worker.IsStopped())
    && (worker.pc == Exited ==> worker.queue == [])
  }

  ghost predicate RoutesInv(s: Pool) {
    && (forall n :: n in s.submitting ==> Routes(|s.workers|, s.submitting[n].0, s.submitting[n].1))
    && (forall i :: 0 <= i < |s.submitted| ==> Routes(|s.workers|, s.submitted[i].0, s.submitted[i].1))
    && (s.closer != NotClosed ==> s.submitting == map[])
  }

  /** Workers that have not called wg.Done. */
  function Alive(workers: seq<Worker>): nat {
    if workers == [] then 0
    else Alive(workers[..|workers| - 1]) + if workers[|workers| - 1].pc == Exited then 0 else 1
  }

  ghost predicate WorkerAt(workers: seq<Worker>, submitted: seq<(Job, nat)>, stopped: nat, w: nat)
    requires w < |workers|
  {
    WorkerInv(workers[w], OnWorker(submitted, w), w < stopped)
  }

  ghost predicate WorkersInv(workers: seq<Worker>, submitted: seq<(Job, nat)>, stopped: nat) {
    forall w: nat :: w < |workers| ==> WorkerAt(workers, submitted, stopped, w)
  }

  ghost predicate Inv(s: Pool) {
    && |s.workers| > 0 && Stopped(s) <= |s.workers|
    && RoutesInv(s)
    && WorkersInv(s.workers, s.submitted, Stopped(s))
    && s.wg == Alive(s.workers)
    && (s.closer == Returned ==> s.wg == 0)
  }

  lemma {:induction false} AllAlive(workers: seq<Worker>)
    requires forall w :: 0 <= w < |workers| ==> workers[w].pc != Exited
    ensures Alive(workers) == |workers|
  {
    if workers != [] {
      AllAlive(workers[..|workers| - 1]);
    }
  }

  lemma {:induction false} AliveUpdated(workers: seq<Worker>, w: nat, worker: Worker)
    requires w < |workers|
    ensures Alive(workers[w := worker]) == Alive(workers)
              + (if worker.pc != Exited then 1 else 0) - (if workers[w].pc != Exited then 1 else 0)
  {
    var last := |workers| - 1;
    if w == last {
      assert workers[w := worker][..last] == workers[..last];
    } else {
      AliveUpdated(workers[..last], w, worker);
      assert workers[w := worker][..last] == workers[..last][w := worker];
    }
  }

  lemma {:induction false} SomeAlive(workers: seq<Worker>) returns (w: nat)
    ensures Alive(workers) == 0 ==> forall v :: 0 <= v < |workers| ==> workers[v].pc == Exited
    ensures Alive(workers) > 0 ==> w < |workers| && workers[w].pc != Exited
  {
    w := 0;
    if workers != [] {
      w := SomeAlive(workers[..|workers| - 1]);
      if workers[|workers| - 1].pc != Exited {
        w := |workers| - 1;
      }
    }
  }

  lemma OnWorkerAppend(submitted: seq<(Job, nat)>, job: Job, to: nat, w: nat)
    ensures OnWorker(submitted + [(job, to)], w) == OnWorker(submitted, w) + (if to == w then [job] else [])
  {
    assert (submitted + [(job, to)])[..|submitted|] == submitted;
  }

  predicate SentTo(submitted: seq<(Job, nat)>, more: seq<(Job, nat)>, w: nat) {
    |more| == |submitted| + 1 && more == submitted + [(more[|submitted|].0, w)]
  }

  /** Only worker `w` changes, and `more` went to it only. */
  lemma OneWorkerChanges(
    workers: seq<Worker>, submitted: seq<(Job, nat)>, more: seq<(Job, nat)>,
    stopped: nat, stopped': nat, w: nat, worker: Worker)
    requires w < |workers| && WorkersInv(workers, submitted, stopped)
    requires more == submitted || SentTo(submitted, more, w)
    requires stopped' == stopped || (stopped == w && stopped' == w + 1)
    requires WorkerInv(worker, OnWorker(more, w), w < stopped')
    ensures WorkersInv(workers[w := worker], more, stopped')
  {
    var workers' := workers[w := worker];
    forall v: nat | v < |workers|
      ensures WorkerAt(workers', more, stopped', v)
    {
      assert WorkerAt(workers, submitted, stopped, v);
      if more != submitted {
        OnWorkerAppend(submitted, more[|submitted|].0, w, v);
      }
    }
  }

  predicate SubmitStep(step: Step) {
    step.Send? || step.HandOver?
  }

  predicate WorkerStep(step: Step) {
    step.Work?
  }

  lemma InitInv(s: Pool)
    requires Init(s)
    ensures Inv(s)
  {
    AllAlive(s.workers);
  }

  lemma GivenKeepsWorker(worker: Worker, worker': Worker, job: Job, lot: seq<Job>)
    requires WorkerInv(worker, lot, false)
    requires || worker' == worker.(queue := worker.queue + [job])
             || (worker == worker'.(pc := Serving) && worker.queue == [] && worker'.pc == Executing(job, false))
    ensures WorkerInv(worker', lot + [job], false)
  {
    assert worker'.Lot() == worker.Lot() + [job];
  }

  lemma SubmitStepInv(s: Pool, step: Step)
    requires Inv(s) && Enabled(s, step) && SubmitStep(step)
    ensures Inv(Do(s, step))
  {
    var t := Do(s, step);
    var (job, to) := s.submitting[step.n];
    assert s.closer == NotClosed;
    AliveUpdated(s.workers, to, t.workers[to]);
    OnWorkerAppend(s.submitted, job, to, to);
    assert WorkerAt(s.workers, s.submitted, 0, to);
    GivenKeepsWorker(s.workers[to], t.workers[to], job, OnWorker(s.submitted, to));
    OneWorkerChanges(s.workers, s.submitted, t.submitted, 0, 0, to, t.workers[to]);
  }

  lemma ByHandlerLast(jobs: seq<Job>, job: Job, handlers: set<Handler>)
    ensures ByHandler(jobs + [job], handlers) ==
            if job.handler in handlers then ByHandler(jobs, handlers) + [job] else ByHandler(jobs, handlers)
  {
    assert (jobs + [job])[..|jobs|] == jobs;
  }

  lemma TakeKeepsWorker(worker: Worker, lot: seq<Job>, stopped: bool)
    requires WorkerInv(worker, lot, stopped) && CanMove(worker, Take)
    ensures WorkerInv(Moved(worker, Take), lot, stopped)
  {
    assert worker.queue == [worker.queue[0]] + worker.queue[1..];
  }

  /** A job is over when its handler is nil, has returned, or has panicked and the panic been
      recovered: the worker's lot, calls and recoveries stay in step. */
  lemma DoneKeepsWorker(worker: Worker, move: Move, lot: seq<Job>, stopped: bool)
    requires WorkerInv(worker, lot, stopped) && CanMove(worker, move) && move in {SkipNil, HandlerReturns, Recover}
    ensures WorkerInv(Moved(worker, move), lot, stopped)
  {
    var job, worker' := worker.pc.job, Moved(worker, move);
    ByHandlerLast(worker.finished, job, CALLED);
    ByHandlerLast(worker.finished, job, {Panics});
    assert worker'.InHand() == [] && worker'.finished + [] == worker.finished + worker.InHand();
    assert worker'.calls == worker.calls;
  }

  lemma CallKeepsWorker(worker: Worker, move: Move, lot: seq<Job>, stopped: bool)
    requires WorkerInv(worker, lot, stopped) && CanMove(worker, move) && move in {CallHandler, HandlerPanics, Exit}
    ensures WorkerInv(Moved(worker, move), lot, stopped)
  {
    assert Moved(worker, move).InHand() == worker.InHand();
  }

  lemma WorkerStepInv(s: Pool, step: Step)
    requires Inv(s) && Enabled(s, step) && WorkerStep(step)
    ensures Inv(Do(s, step))
  {
    var worker, worker' := s.workers[step.w], Do(s, step).workers[step.w];
    AliveUpdated(s.workers, step.w, worker');
    assert WorkerAt(s.workers, s.submitted, Stopped(s), step.w);
    var lot, stopped := OnWorker(s.submitted, step.w), step.w < Stopped(s);
    if step.move == Take {
      TakeKeepsWorker(worker, lot, stopped);
    } else if step.move in {SkipNil, HandlerReturns, Recover} {
      DoneKeepsWorker(worker, step.move, lot, stopped);
    } else {
      CallKeepsWorker(worker, step.move, lot, stopped);
    }
    OneWorkerChanges(s.workers, s.submitted, s.submitted, Stopped(s), Stopped(s), step.w, worker');
  }

  lemma StopInv(s: Pool)
    requires Inv(s) && Enabled(s, Stop)
    ensures Inv(Do(s, Stop))
  {
    var w := s.closer.next;
    if w < |s.workers| {
      var worker := s.workers[w].(pc := Draining);
      AliveUpdated(s.workers, w, worker);
      assert WorkerAt(s.workers, s.submitted, w, w);
      assert worker.Lot() == s.workers[w].Lot();
      OneWorkerChanges(s.workers, s.submitted, s.submitted, w, w + 1, w, worker);
    }
  }

  lemma OtherStepInv(s: Pool, step: Step)
    requires Inv(s) && Enabled(s, step) && (step.CallSubmit? || step.CallClose? || step.WaitReturns?)
    ensures Inv(Do(s, step))
  {
  }

  lemma {:induction false} ExecutionInv(run: seq<Pool>, i: nat)
    requires Execution(run) && i < |run|
    ensures Inv(run[i])
  {
    if i == 0 {
      InitInv(run[0]);
    } else {
      ExecutionInv(run, i - 1);
      assert StepAt(run, i - 1);
      var step :| Enabled(run[i - 1], step) && run[i] == Do(run[i - 1], step);
      if SubmitStep(step) {
        SubmitStepInv(run[i - 1], step);
      } else if WorkerStep(step) {
        WorkerStepInv(run[i - 1], step);
      } else if step.Stop? {
        StopInv(run[i - 1]);
      } else {
        OtherStepInv(run[i - 1], step);
      }
    }
  }

  // ---------------------------------------------------------------------------
  // Safety of every interleaving
  // ---------------------------------------------------------------------------

  /** The finished jobs of all workers. */
  function Finished(workers: seq<Worker>, n: nat): seq<Job>
    requires n <= |workers|
  {
    if n == 0 then [] else Finished(workers, n - 1) + workers[n - 1].finished
  }

  /** What all workers got, as a bag. */
  function Gathered(submitted: seq<(Job, nat)>, n: nat): multiset<Job> {
    if n == 0 then multiset{} else Gathered(submitted, n - 1) + multiset(OnWorker(submitted, n - 1))
  }

  lemma {:induction false} GatheredAppend(submitted: seq<(Job, nat)>, job: Job, to: nat, n: nat)
    ensures Gathered(submitted + [(job, to)], n) ==
            Gathered(submitted, n) + (if to < n then multiset{job} else multiset{})
  {
    if n > 0 {
      GatheredAppend(submitted, job, to, n - 1);
      OnWorkerAppend(submitted, job, to, n - 1);
      var lot := OnWorker(submitted, n - 1);
      assert multiset(lot + [job]) == multiset(lot) + multiset{job};
    }
  }

  lemma {:induction false} GatheredNone(n: nat)
    ensures Gathered([], n) == multiset{}
  {
    if n > 0 {
      GatheredNone(n - 1);
    }
  }

  /** The workers' lots are the submitted jobs, each on exactly one worker. */
  lemma {:induction false} EachJobHasOneWorker(submitted: seq<(Job, nat)>, n: nat)
    requires forall i :: 0 <= i < |submitted| ==> submitted[i].1 < n
    ensures Gathered(submitted, n) == multiset(Jobs(submitted))
  {
    if submitted == [] {
      GatheredNone(n);
    } else {
      var rest := submitted[..|submitted| - 1];
      var (job, to) := submitted[|submitted| - 1];
      assert submitted == rest + [(job, to)];
      EachJobHasOneWorker(rest, n);
      GatheredAppend(rest, job, to, n);
      assert Jobs(submitted) == Jobs(rest) + [job];
    }
  }

  lemma {:induction false} FinishedIsGathered(workers: seq<Worker>, submitted: seq<(Job, nat)>, n: nat)
    requires n <= |workers|
    requires forall w :: 0 <= w < n ==> workers[w].finished == OnWorker(submitted, w)
    ensures multiset(Finished(workers, n)) == Gathered(submitted, n)
  {
    if n > 0 {
      FinishedIsGathered(workers, submitted, n - 1);
    }
  }

  /** The handler calls of all workers, and the recovered panics. */
  function Calls(workers: seq<Worker>, n: nat): seq<Job>
    requires n <= |workers|
  {
    if n == 0 then [] else Calls(workers, n - 1) + workers[n - 1].calls
  }

  function Recoveries(workers: seq<Worker>, n: nat): seq<Job>
    requires n <= |workers|
  {
    if n == 0 then [] else Recoveries(workers, n - 1) + workers[n - 1].recovered
  }

  lemma {:induction false} ByHandlerConcat(a: seq<Job>, b: seq<Job>, handlers: set<Handler>)
    ensures ByHandler(a + b, handlers) == ByHandler(a, handlers) + ByHandler(b, handlers)
  {
    if b == [] {
      assert a + b == a;
    } else {
      var rest, last := b[..|b| - 1], b[|b| - 1];
      ByHandlerConcat(a, rest, handlers);
      var all := a + rest;
      assert a + b == all + [last] && rest + [last] == b;
      ByHandlerLast(all, last, handlers);
      ByHandlerLast(rest, last, handlers);
    }
  }

  /** Which jobs remain does not depend on their order. */
  lemma {:induction false} ByHandlerCount(jobs: seq<Job>, handlers: set<Handler>, job: Job)
    ensures multiset(ByHandler(jobs, handlers))[job] == if job.handler in handlers then multiset(jobs)[job] else 0
  {
    if jobs != [] {
      var rest, last := jobs[..|jobs| - 1], jobs[|jobs| - 1];
      ByHandlerCount(rest, handlers, job);
      assert jobs == rest + [last];
    }
  }

  lemma SameBag(a: seq<Job>, b: seq<Job>, handlers: set<Handler>)
    requires multiset(a) == multiset(b)
    ensures multiset(ByHandler(a, handlers)) == multiset(ByHandler(b, handlers))
  {
    forall job: Job
      ensures multiset(ByHandler(a, handlers))[job] == multiset(ByHandler(b, handlers))[job]
    {
      ByHandlerCount(a, handlers, job);
      ByHandlerCount(b, handlers, job);
    }
  }

  lemma {:induction false} CallsAreFinished(workers: seq<Worker>, n: nat)
    requires n <= |workers|
    requires forall w :: 0 <= w < n ==>
               && workers[w].calls == ByHandler(workers[w].finished, CALLED)
               && workers[w].recovered == ByHandler(workers[w].finished, {Panics})
    ensures Calls(workers, n) == ByHandler(Finished(workers, n), CALLED)
    ensures Recoveries(workers, n) == ByHandler(Finished(workers, n), {Panics})
  {
    if n > 0 {
      CallsAreFinished(workers, n - 1);
      assert Finished(workers, n) == Finished(workers, n - 1) + workers[n - 1].finished;
      ByHandlerConcat(Finished(workers, n - 1), workers[n - 1].finished, CALLED);
      ByHandlerConcat(Finished(workers, n - 1), workers[n - 1].finished, {Panics});
    }
  }

  lemma WorkersAreDone(run: seq<Pool>, i: nat)
    requires Execution(run) && i < |run| && run[i].closer == Returned
    ensures forall w :: 0 <= w < |run[i].workers| ==>
              && run[i].workers[w].pc == Exited && run[i].workers[w].finished == OnWorker(run[i].submitted, w)
              && run[i].workers[w].calls == ByHandler(run[i].workers[w].finished, CALLED)
              && run[i].workers[w].recovered == ByHandler(run[i].workers[w].finished, {Panics})
  {
    var s := run[i];
    ExecutionInv(run, i);
    var _ := SomeAlive(s.workers);
    forall w: nat | w < |s.workers|
      ensures s.workers[w].pc == Exited && WorkerAt(s.workers, s.submitted, Stopped(s), w)
      ensures s.workers[w].Lot() == s.workers[w].finished
    {
      assert WorkerAt(s.workers, s.submitted, Stopped(s), w);
    }
  }

  /** When the Close that shuts the pool down returns, the executed jobs are the submitted ones,
      each exactly once, and every worker has executed its own in the order it got them: the
      handler of each job that has one has been called once, whatever the other handlers did, and
      each panic has been recovered. */
  lemma CloseDrains(run: seq<Pool>, i: nat)
    requires Execution(run) && i < |run| && run[i].closer == Returned
    ensures var s := run[i];
            && s.submitting == map[]
            && (forall w :: 0 <= w < |s.workers| ==>
                  && s.workers[w].pc == Exited && s.workers[w].finished == OnWorker(s.submitted, w)
                  && s.workers[w].calls == ByHandler(OnWorker(s.submitted, w), CALLED))
            && multiset(Finished(s.workers, |s.workers|)) == multiset(Jobs(s.submitted))
            && multiset(Calls(s.workers, |s.workers|)) == multiset(ByHandler(Jobs(s.submitted), CALLED))
            && multiset(Recoveries(s.workers, |s.workers|)) == multiset(ByHandler(Jobs(s.submitted), {Panics}))
  {
    var s := run[i];
    ExecutionInv(run, i);
    WorkersAreDone(run, i);
    FinishedIsGathered(s.workers, s.submitted, |s.workers|);
    EachJobHasOneWorker(s.submitted, |s.workers|);
    CallsAreFinished(s.workers, |s.workers|);
    SameBag(Finished(s.workers, |s.workers|), Jobs(s.submitted), CALLED);
    SameBag(Finished(s.workers, |s.workers|), Jobs(s.submitted), {Panics});
  }

  lemma {:induction false} WithKeyAppend(a: seq<Job>, b: seq<Job>, key: int)
    ensures WithKey(a + b, key) == WithKey(a, key) + WithKey(b, key)
  {
    if b == [] {
      assert a + b == a;
    } else {
      WithKeyAppend(a, b[..|b| - 1], key);
      assert (a + b)[..|a + b| - 1] == a + b[..|b| - 1];
    }
  }

  /** All jobs with one key are on the worker the key selects, in order of submission. */
  lemma {:induction false} KeyHasOneWorker(submitted: seq<(Job, nat)>, capacity: nat, key: nat, w: nat)
    requires capacity > 0
    requires forall i :: 0 <= i < |submitted| ==> Routes(capacity, submitted[i].0, submitted[i].1)
    ensures WithKey(OnWorker(submitted, w), key) ==
            if w == key % capacity then WithKey(Jobs(submitted), key) else []
  {
    if submitted == [] {
      assert Jobs(submitted) == [];
    } else {
      var rest := submitted[..|submitted| - 1];
      var (job, to) := submitted[|submitted| - 1];
      assert submitted == rest + [(job, to)];
      assert Routes(capacity, submitted[|submitted| - 1].0, submitted[|submitted| - 1].1);
      KeyHasOneWorker(rest, capacity, key, w);
      assert Jobs(submitted) == Jobs(rest) + [job];
      WithKeyAppend(Jobs(rest), [job], key);
      assert OnWorker(submitted, w) == if to == w then OnWorker(rest, w) + [job] else OnWorker(rest, w);
      WithKeyAppend(OnWorker(rest, w), [job], key);
      assert WithKey([job], key) == if job.workerId == key then [job] else [];
    }
  }

  /** At every moment, the jobs with one key that have been executed, then the one that is being
      executed, then the waiting ones, are those submitted, in order; there is at most one of them
      in execution, because no other worker has any. */
  lemma KeysRunInOrder(run: seq<Pool>, i: nat, key: nat, v: nat)
    requires Execution(run) && i < |run| && v < |run[i].workers|
    ensures var s := run[i];
            var worker := s.workers[v];
            WithKey(worker.finished, key) + WithKey(worker.InHand(), key) + WithKey(worker.queue, key) ==
            if v == key % |s.workers| then WithKey(Jobs(s.submitted), key) else []
    ensures |run[i].workers[v].InHand()| <= 1
  {
    var s := run[i];
    var worker := s.workers[v];
    ExecutionInv(run, i);
    assert WorkerAt(s.workers, s.submitted, Stopped(s), v);
    KeyHasOneWorker(s.submitted, |s.workers|, key, v);
    WithKeyAppend(worker.finished + worker.InHand(), worker.queue, key);
    WithKeyAppend(worker.finished, worker.InHand(), key);
  }

  lemma WithKeyLast(jobs: seq<Job>, job: Job, key: int)
    ensures WithKey(jobs + [job], key) == if job.workerId == key then WithKey(jobs, key) + [job] else WithKey(jobs, key)
  {
    assert (jobs + [job])[..|jobs|] == jobs;
  }

  lemma {:induction false} KeyAndHandlerCommute(jobs: seq<Job>, key: int, handlers: set<Handler>)
    ensures WithKey(ByHandler(jobs, handlers), key) == ByHandler(WithKey(jobs, key), handlers)
  {
    if jobs != [] {
      var rest, last := jobs[..|jobs| - 1], jobs[|jobs| - 1];
      KeyAndHandlerCommute(rest, key, handlers);
      assert jobs == rest + [last];
      ByHandlerLast(rest, last, handlers);
      WithKeyLast(rest, last, key);
      WithKeyLast(ByHandler(rest, handlers), last, key);
      ByHandlerLast(WithKey(rest, key), last, handlers);
    }
  }

  /** The handlers of one key are called in order of submission, each once: those called so far,
      on the worker the key selects, are the first ones of those there are. */
  lemma HandlersOfKeyAreCalledInOrder(run: seq<Pool>, i: nat, key: nat, v: nat)
    requires Execution(run) && i < |run| && v < |run[i].workers|
    ensures var s := run[i];
            WithKey(s.workers[v].calls, key) <=
            if v == key % |s.workers| then ByHandler(WithKey(Jobs(s.submitted), key), CALLED) else []
  {
    var s := run[i];
    var worker, lot := s.workers[v], OnWorker(s.submitted, v);
    ExecutionInv(run, i);
    assert WorkerAt(s.workers, s.submitted, Stopped(s), v);
    var later := CallsComeFirst(worker, lot, v < Stopped(s));
    WithKeyAppend(worker.calls, later, key);
    KeyAndHandlerCommute(lot, key, CALLED);
    KeyHasOneWorker(s.submitted, |s.workers|, key, v);
  }

  lemma Regrouped(whole: seq<Job>, done: seq<Job>, hand: seq<Job>, queue: seq<Job>)
    requires whole == done + hand + queue
    ensures whole == done + (hand + queue)
  {
  }

  lemma HandIsCalled(worker: Worker)
    requires worker.pc.InHandler? || worker.pc.Unwinding? ==> worker.pc.job.handler in CALLED
    ensures worker.InCall() == [] || worker.InCall() == ByHandler(worker.InHand(), CALLED)
  {
    if worker.InHand() != [] {
      ByHandlerLast([], worker.pc.job, CALLED);
      assert [] + [worker.pc.job] == worker.InHand();
    }
  }

  lemma CallsComeFirst(worker: Worker, lot: seq<Job>, stopped: bool) returns (later: seq<Job>)
    requires WorkerInv(worker, lot, stopped)
    ensures worker.calls + later == ByHandler(lot, CALLED)
  {
    var done, hand := ByHandler(worker.finished, CALLED), ByHandler(worker.InHand(), CALLED);
    var waiting := ByHandler(worker.queue, CALLED);
    ByHandlerConcat(worker.finished + worker.InHand(), worker.queue, CALLED);
    ByHandlerConcat(worker.finished, worker.InHand(), CALLED);
    HandIsCalled(worker);
    Regrouped(ByHandler(lot, CALLED), done, hand, waiting);
    later := if worker.InCall() == [] then hand + waiting else waiting;
    assert worker.InCall() == [] ==> worker.calls == done;
  }

  lemma {:induction false} LotIsRouted(submitted: seq<(Job, nat)>, capacity: nat, w: nat, job: Job)
    requires forall i :: 0 <= i < |submitted| ==> Routes(capacity, submitted[i].0, submitted[i].1)
    requires job in OnWorker(submitted, w)
    ensures Routes(capacity, job, w)
  {
    var last := |submitted| - 1;
    if submitted[last] != (job, w) {
      LotIsRouted(submitted[..last], capacity, w, job);
    } else {
      assert Routes(capacity, submitted[last].0, submitted[last].1);
    }
  }

  /** Two handlers that are running at once do not have one key. */
  lemma HandlersOfKeyNeverOverlap(run: seq<Pool>, i: nat, u: nat, v: nat)
    requires Execution(run) && i < |run| && u < |run[i].workers| && v < |run[i].workers| && u != v
    requires run[i].workers[u].InCall() != [] && run[i].workers[v].InCall() != []
    ensures var a, b := run[i].workers[u].pc.job.workerId, run[i].workers[v].pc.job.workerId;
            a == b ==> a < 0
  {
    var s := run[i];
    ExecutionInv(run, i);
    forall w | w == u || w == v
      ensures Routes(|s.workers|, s.workers[w].pc.job, w)
    {
      assert WorkerAt(s.workers, s.submitted, Stopped(s), w);
      var worker := s.workers[w];
      assert worker.Lot()[|worker.finished|] == worker.pc.job;
      LotIsRouted(s.submitted, |s.workers|, w, worker.pc.job);
    }
  }

  // ---------------------------------------------------------------------------
  // The shutdown ends
  // ---------------------------------------------------------------------------

  function WorkerRank(worker: Worker): nat {
    4 * |worker.queue| + match worker.pc
                         case Serving => 2
                         case Draining => 1
                         case Executing(_, rest) => if rest then 4 else 5
                         case InHandler(_, rest) => if rest then 3 else 4
                         case Unwinding(_, rest) => if rest then 2 else 3
                         case Exited => 0
  }

  function WorkersRank(workers: seq<Worker>): nat {
    if workers == [] then 0 else WorkersRank(workers[..|workers| - 1]) + WorkerRank(workers[|workers| - 1])
  }

  function Rank(s: Pool): nat {
    WorkersRank(s.workers) + match s.closer case Returned => 0 case Waiting => 1 case _ => 2
  }

  lemma {:induction false} WorkersRankUpdated(workers: seq<Worker>, w: nat, worker: Worker)
    requires w < |workers|
    ensures WorkersRank(workers[w := worker]) == WorkersRank(workers) + WorkerRank(worker) - WorkerRank(workers[w])
  {
    var last := |workers| - 1;
    if w == last {
      assert workers[w := worker][..last] == workers[..last];
    } else {
      WorkersRankUpdated(workers[..last], w, worker);
      assert workers[w := worker][..last] == workers[..last][w := worker];
    }
  }

  /** During the shutdown every step, other than calls that return at once, brings its end nearer. */
  lemma ShutdownAdvances(s: Pool, step: Step)
    requires Inv(s) && s.closer != NotClosed && Enabled(s, step) && !step.CallSubmit? && !step.CallClose?
    ensures Rank(Do(s, step)) < Rank(s)
  {
    if WorkerStep(step) {
      WorkersRankUpdated(s.workers, step.w, Do(s, step).workers[step.w]);
    } else if step.Stop? && s.closer.next < |s.workers| {
      WorkersRankUpdated(s.workers, s.closer.next, Do(s, step).workers[s.closer.next]);
    }
  }

  /** What a stopped worker, or one that has a job in hand, can do. */
  function NextMove(worker: Worker): Move {
    match worker.pc
    case Executing(job, _) => if job.handler == NoHandler then SkipNil else CallHandler
    case InHandler(job, _) => if job.handler == Panics then HandlerPanics else HandlerReturns
    case Unwinding(_, _) => Recover
    case _ => if worker.queue != [] then Take else Exit
  }

  /** And until Close returns there is such a step. */
  lemma ShutdownIsNeverStuck(s: Pool) returns (step: Step)
    requires Inv(s) && s.closer != NotClosed && s.closer != Returned
    ensures Enabled(s, step) && !step.CallSubmit? && !step.CallClose?
  {
    if s.closer.Stopping? {
      var w := s.closer.next;
      if w == |s.workers| || s.workers[w].pc == Serving {
        step := Stop;
      } else {
        assert WorkerAt(s.workers, s.submitted, Stopped(s), w);
        step := Work(w, NextMove(s.workers[w]));
      }
    } else if s.wg == 0 {
      step := WaitReturns;
    } else {
      var w := SomeAlive(s.workers);
      assert WorkerAt(s.workers, s.submitted, Stopped(s), w);
      step := Work(w, NextMove(s.workers[w]));
    }
  }

  // ---------------------------------------------------------------------------
  // Every job gets done, also while the pool is open
  // ---------------------------------------------------------------------------

  /** Submit is refused by a closed pool only; a job goes to the worker its key selects, and to its
      queue, or straight to it when it is idle. Close shuts an open pool down, and no other. */
  lemma CallsTakeEffect(s: Pool, step: Step)
    requires Inv(s) && Enabled(s, step)
    ensures match step
            case CallSubmit(n, job, w) =>
              && Do(s, step).submitting == (if s.closer == NotClosed then s.submitting[n := (job, w)] else s.submitting)
              && (job.workerId >= 0 ==> w == job.workerId % |s.workers|)
            case Send(n) =>
              var (job, w) := s.submitting[n];
              Do(s, step).submitted == s.submitted + [(job, w)] && Do(s, step).workers[w].queue == s.workers[w].queue + [job]
            case HandOver(n) =>
              var (job, w) := s.submitting[n];
              && Do(s, step).submitted == s.submitted + [(job, w)]
              && s.workers[w].queue == [] && Do(s, step).workers[w].pc == Executing(job, false)
            case CallClose => Do(s, step).closer == if s.closer == NotClosed then Stopping(0) else s.closer
            case _ => Do(s, step).submitted == s.submitted
  {
  }

  predicate HasWork(worker: Worker) {
    worker.queue != [] || worker.InHand() != []
  }

  /** What is left to do for callers of Submit and workers. */
  function OpenRank(s: Pool): nat {
    6 * |s.submitting| + WorkersRank(s.workers)
  }

  lemma WorkGoesOn(s: Pool, w: nat)
    requires Inv(s) && s.closer == NotClosed && w < |s.workers| && HasWork(s.workers[w])
    ensures var step := Work(w, NextMove(s.workers[w]));
            && Enabled(s, step) && OpenRank(Do(s, step)) < OpenRank(s)
            && Do(s, step).closer == NotClosed && Do(s, step).submitting == s.submitting
            && Do(s, step).submitted == s.submitted
  {
    var step := Work(w, NextMove(s.workers[w]));
    assert WorkerAt(s.workers, s.submitted, Stopped(s), w);
    WorkersRankUpdated(s.workers, w, Do(s, step).workers[w]);
  }

  lemma SubmitGoesOn(s: Pool, n: nat)
    requires Inv(s) && s.closer == NotClosed && n in s.submitting
    requires forall w :: 0 <= w < |s.workers| ==> !HasWork(s.workers[w])
    ensures Enabled(s, HandOver(n))
    ensures var t := Do(s, HandOver(n));
            && OpenRank(t) < OpenRank(s) && t.closer == NotClosed
            && t.submitting == s.submitting - {n} && t.submitted == s.submitted + [s.submitting[n]]
  {
    var (job, w) := s.submitting[n];
    assert Routes(|s.workers|, job, w);
    assert WorkerAt(s.workers, s.submitted, Stopped(s), w);
    WorkersRankUpdated(s.workers, w, Do(s, HandOver(n)).workers[w]);
    assert |s.submitting - {n}| == |s.submitting| - 1;
  }

  /** What is submitted stays submitted, and what is being submitted still is or has been. */
  ghost predicate Carries(s: Pool, t: Pool) {
    && s.submitted <= t.submitted
    && forall n :: n in s.submitting ==>
         (n in t.submitting && t.submitting[n] == s.submitting[n]) || s.submitting[n] in t.submitted
  }

  lemma CarriesOn(r: Pool, s: Pool, t: Pool)
    requires Carries(r, s) && Carries(s, t)
    ensures Carries(r, t)
  {
    forall job | job in s.submitted
      ensures job in t.submitted
    {
      var i :| 0 <= i < |s.submitted| && s.submitted[i] == job;
      assert t.submitted[i] == job;
    }
  }

  predicate AllIdle(s: Pool) {
    s.submitting == map[] && forall w :: 0 <= w < |s.workers| ==> !HasWork(s.workers[w])
  }

  lemma OneTaskMore(run: seq<Pool>) returns (next: seq<Pool>)
    requires Execution(run) && run[|run| - 1].closer == NotClosed && !AllIdle(run[|run| - 1])
    ensures Execution(next) && |next| == |run| + 1 && run <= next && next[|run|].closer == NotClosed
    ensures Carries(run[|run| - 1], next[|run|]) && OpenRank(next[|run|]) < OpenRank(run[|run| - 1])
  {
    var s := run[|run| - 1];
    ExecutionInv(run, |run| - 1);
    if w :| 0 <= w < |s.workers| && HasWork(s.workers[w]) {
      WorkGoesOn(s, w);
      next := OneStepMore(run, Work(w, NextMove(s.workers[w])));
    } else {
      var n :| n in s.submitting;
      SubmitGoesOn(s, n);
      next := OneStepMore(run, HandOver(n));
      assert next[|run|].submitted[|s.submitted|] == s.submitting[n];
    }
  }

  /** From every moment before Close, the run can go on to one at which every call of Submit has
      returned and every job submitted is finished. */
  lemma {:induction false} EveryJobCanFinish(run: seq<Pool>) returns (longer: seq<Pool>)
    requires Execution(run) && run[|run| - 1].closer == NotClosed
    ensures Execution(longer) && run <= longer
    ensures var t := longer[|longer| - 1];
            && t.closer == NotClosed && t.submitting == map[] && Carries(run[|run| - 1], t)
            && multiset(Finished(t.workers, |t.workers|)) == multiset(Jobs(t.submitted))
    decreases OpenRank(run[|run| - 1])
  {
    if AllIdle(run[|run| - 1]) {
      longer := run;
      ExecutionInv(run, |run| - 1);
      IdleIsFinished(run[|run| - 1]);
    } else {
      var next := OneTaskMore(run);
      longer := EveryJobCanFinish(next);
      CarriesOn(run[|run| - 1], next[|run|], longer[|longer| - 1]);
    }
  }

  lemma IdleIsFinished(s: Pool)
    requires Inv(s) && forall w :: 0 <= w < |s.workers| ==> !HasWork(s.workers[w])
    ensures multiset(Finished(s.workers, |s.workers|)) == multiset(Jobs(s.submitted))
  {
    forall w: nat | w < |s.workers|
      ensures s.workers[w].finished == OnWorker(s.submitted, w)
    {
      assert WorkerAt(s.workers, s.submitted, Stopped(s), w);
      assert s.workers[w].finished + [] + [] == s.workers[w].finished;
    }
    FinishedIsGathered(s.workers, s.submitted, |s.workers|);
    EachJobHasOneWorker(s.submitted, |s.workers|);
  }

  lemma OneStepMore(run: seq<Pool>, step: Step) returns (next: seq<Pool>)
    requires Execution(run) && Enabled(run[|run| - 1], step)
    ensures Execution(next) && |next| == |run| + 1 && run <= next && next[|run|] == Do(run[|run| - 1], step)
  {
    next := run + [Do(run[|run| - 1], step)];
    assert Next(run[|run| - 1], next[|run|]);
    forall i | 0 <= i < |next| - 1
      ensures StepAt(next, i)
    {
      assert i + 1 < |run| ==> StepAt(run, i);
    }
  }

  // ---------------------------------------------------------------------------
  // One worker's goroutine
  // ---------------------------------------------------------------------------

  datatype LogLine = HandlerIsNil(job: Job) | HandlerError(job: Job) | PanicRecovered(job: Job)

  /** What the execution of these jobs writes to the log. */
  function Logged(jobs: seq<Job>): seq<LogLine> {
    if jobs == [] then []
    else
      var job := jobs[|jobs| - 1];
      Logged(jobs[..|jobs| - 1]) + match job.handler
                                   case NoHandler => [HandlerIsNil(job)]
                                   case Returns => []
                                   case Fails => [HandlerError(job)]
                                   case Panics => [PanicRecovered(job)]
  }

  /** `worker.process` as its own goroutine sees it: before each select some jobs arrive, and the
      last select gets the stop signal. */
  class WorkerLoop {
    var jobs: seq<Job>
    var executed: seq<Job>
    var calls: seq<Job>
    var log: seq<LogLine>
    var closed: bool             // jobChan and stopChan

    /** Of the jobs executed, every handler there is has been called, and every nil handler, error
        and panic has been logged. */
    ghost predicate Valid()
      reads this
    {
      calls == ByHandler(executed, CALLED) && log == Logged(executed)
    }

    constructor ()
      ensures Valid() && jobs == [] && executed == [] && !closed
    {
      jobs, executed, calls, log, closed := [], [], [], [], false;
    }

    method CallHandler(job: Job) returns (outcome: Handler)
      requires job.handler != NoHandler
      modifies `calls
      ensures calls == old(calls) + [job] && outcome == job.handler
    {
      calls := calls + [job];
      outcome := job.handler;
    }

    /** A nil handler is not called; an error is logged; a panic unwinds to the deferred recover.
        The goroutine goes on in every case. */
    method Execute(job: Job)
      requires Valid()
      modifies `executed, `calls, `log
      ensures Valid() && executed == old(executed) + [job]
      ensures calls == old(calls) + if job.handler == NoHandler then [] else [job]
      ensures match job.handler
              case NoHandler => log == old(log) + [HandlerIsNil(job)]
              case Returns => log == old(log)
              case Fails => log == old(log) + [HandlerError(job)]
              case Panics => log == old(log) + [PanicRecovered(job)]
    {
      ByHandlerLast(executed, job, CALLED);
      assert (executed + [job])[..|executed|] == executed;
      executed := executed + [job];
      if job.handler == NoHandler {
        log := log + [HandlerIsNil(job)];
        return;
      }
      var outcome := CallHandler(job);
      if outcome == Panics {
        log := log + [PanicRecovered(job)];
        return;
      }
      if outcome == Fails {
        log := log + [HandlerError(job)];
      }
    }

    method TakeOne()
      requires Valid() && jobs != []
      modifies `jobs, `executed, `calls, `log
      ensures Valid()
      ensures executed + jobs == old(executed + jobs) && |jobs| == old(|jobs|) - 1
    {
      var job := jobs[0];
      jobs := jobs[1..];
      Execute(job);
      assert old(jobs) == [job] + jobs;
    }

    /** Every job that arrives before the stop is executed, in order of arrival. */
    method Process(arrivals: seq<seq<Job>>)
      requires Valid() && !closed
      modifies this
      ensures Valid()
      ensures executed == old(executed + jobs) + Flattened(arrivals)
      ensures jobs == [] && closed
    {
      ghost var all := executed + jobs + Flattened(arrivals);
      var i := 0;
      while i < |arrivals|
        invariant i <= |arrivals| && !closed && Valid()
        invariant executed + jobs + Flattened(arrivals[i..]) == all
      {
        NextBatch(executed + jobs, arrivals, i);
        assert executed + (jobs + arrivals[i]) == executed + jobs + arrivals[i];
        jobs := jobs + arrivals[i];
        var takes := *;
        if takes && jobs != [] {
          TakeOne();
        }
        i := i + 1;
      }
      assert executed + jobs + [] == executed + jobs;
      closed := true;
      while jobs != []
        invariant executed + jobs == all && closed && Valid()
        decreases |jobs|
      {
        TakeOne();
      }
      assert executed + [] == executed;
    }
  }
}
