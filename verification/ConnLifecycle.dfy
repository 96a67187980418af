/** The lifecycle of one connection, `common/network/conn_impl.go`: the goroutine that calls
    `Run`, the write, read and heartbeat loops, and any number of outside callers of `Close`,
    interleaved at their atomic steps. */
module ConnLifecycle {

  import opened Basics

  datatype Cause =
    | ErrClosed | WriteError | ShortWrite | DecodeError | DeliverError | OnOpenError
    | HeartbeatTimeout | SendError | LoopPanic

  datatype Loop = Writer | Reader | Beat

  /** Where a loop goroutine is. It leaves its loop body by observing the cancelled context,
      or through `closeWithCause`, which a callback inside the body may call as well. */
  datatype LoopPc = Off | Running | FailClosing(cause: Cause) | CallbackClosing | Exiting | Exited

  datatype MainPc =
    | NotRun | Won | InOnOpen | OnOpenClosing | OpenFailed(cause: Cause) | CheckErr
    | StartBeat | Waiting | FinalClosing(cause: Cause) | Closed | InOnClose | OnCloseClosing | Returned

  datatype Agent = Main | InLoop(l: Loop) | Outside(n: nat)

  /** `closeOnce`: who runs its body, and how far it has come. */
  datatype Once = Fresh | Cancelling(who: Agent, cause: Cause) | ClosingTransport(who: Agent) | Done

  datatype Conn = Conn(
    hasHeartbeat: bool,                  // a heartbeater is injected and its interval is positive
    main: MainPc,
    writer: LoopPc, reader: LoopPc, beat: LoopPc,
    closers: set<nat>,                   // outside callers that are inside Close
    once: Once,
    cause: Option<Cause>,                // context.Cause
    wg: int,
    transportCloses: nat,
    onCloseCalls: nat,
    reported: Option<Cause>)             // what OnClose was handed
  {
    function Pc(l: Loop): LoopPc {
      match l case Writer => writer case Reader => reader case Beat => beat
    }

    function With(l: Loop, pc: LoopPc): Conn {
      match l
      case Writer => this.(writer := pc)
      case Reader => this.(reader := pc)
      case Beat => this.(beat := pc)
    }

    /** The cause with which an agent is inside `closeWithCause`, if it is. */
    function ClosingWith(a: Agent): Option<Cause> {
      match a
      case Main =>
        (match main
         case OnOpenClosing => Some(ErrClosed)
         case OpenFailed(c) => Some(c)
         case FinalClosing(c) => Some(c)
         case OnCloseClosing => Some(ErrClosed)
         case _ => None)
      case InLoop(l) =>
        (match Pc(l)
         case FailClosing(c) => Some(c)
         case CallbackClosing => Some(ErrClosed)
         case _ => None)
      case Outside(n) => if n in closers then Some(ErrClosed) else None
    }

    /** Where an agent goes on after `closeWithCause` has returned. */
    function AfterClosing(a: Agent): Conn {
      match a
      case Main =>
        (match main
         case OnOpenClosing => this.(main := InOnOpen)
         case OpenFailed(_) => this.(main := CheckErr)
         case FinalClosing(_) => this.(main := Closed)
         case OnCloseClosing => this.(main := InOnClose)
         case _ => this)
      case InLoop(l) =>
        (match Pc(l)
         case FailClosing(_) => With(l, Exiting)
         case CallbackClosing => With(l, Running)
         case _ => this)
      case Outside(n) => this.(closers := closers - {n})
    }
  }

  predicate Init(s: Conn) {
    s == Conn(s.hasHeartbeat, NotRun, Off, Off, Off, {}, Fresh, None, 0, 0, 0, None)
  }

  // ---------------------------------------------------------------------------
  // Atomic steps
  // ---------------------------------------------------------------------------

  datatype Step =
    // the goroutine of Run
    | CallRun                            // wins the compare-and-swap, or returns at once
    | StartWriter
    | OnOpenCallsClose
    | OnOpenReturns(err: Option<Cause>)  // a panic is turned into an error
    | CheckAndStartReader
    | StartHeartbeat
    | WaitReturns
    | CallOnClose
    | OnCloseCallsClose
    | OnCloseReturns
    // loops
    | LoopFails(l: Loop, cause: Cause)   // an error or a recovered panic in the loop body
    | LoopCallsClose(l: Loop)            // a callback inside the loop body calls Close
    | LoopStops(l: Loop)                 // the loop observes the cancelled context
    | LoopDone(l: Loop)                  // wg.Done
    // outside callers
    | CallClose(n: nat)
    // closeOnce
    | EnterOnce(a: Agent)
    | CancelContext
    | CloseTransport
    | LeaveOnce(a: Agent)

  predicate Enabled(s: Conn, step: Step) {
    match step
    case CallRun => true
    case StartWriter => s.main == Won
    case OnOpenCallsClose => s.main == InOnOpen
    case OnOpenReturns(_) => s.main == InOnOpen
    case CheckAndStartReader => s.main == CheckErr
    case StartHeartbeat => s.main == StartBeat
    case WaitReturns => s.main == Waiting && s.wg == 0
    case CallOnClose => s.main == Closed
    case OnCloseCallsClose => s.main == InOnClose
    case OnCloseReturns => s.main == InOnClose
    case LoopFails(l, _) => s.Pc(l) == Running
    case LoopCallsClose(l) => s.Pc(l) == Running
    case LoopStops(l) => s.Pc(l) == Running && s.cause.Some?
    case LoopDone(l) => s.Pc(l) == Exiting
    case CallClose(n) => n !in s.closers
    case EnterOnce(a) => s.ClosingWith(a).Some? && s.once == Fresh
    case CancelContext => s.once.Cancelling?
    case CloseTransport => s.once.ClosingTransport?
    case LeaveOnce(a) => s.ClosingWith(a).Some? && s.once == Done
  }

  function Do(s: Conn, step: Step): Conn
    requires Enabled(s, step)
  {
    match step
    case CallRun => if s.main == NotRun then s.(main := Won) else s
    case StartWriter => s.(writer := Running, wg := s.wg + 1, main := InOnOpen)
    case OnOpenCallsClose => s.(main := OnOpenClosing)
    case OnOpenReturns(err) => s.(main := match err case Some(c) => OpenFailed(c) case None => CheckErr)
    case CheckAndStartReader =>
      if s.cause == None then s.(reader := Running, wg := s.wg + 1, main := StartBeat) else s.(main := Waiting)
    case StartHeartbeat =>
      if s.hasHeartbeat then s.(beat := Running, wg := s.wg + 1, main := Waiting) else s.(main := Waiting)
    case WaitReturns =>
      // closeWithCause(c.Err()), where a nil error stands for ErrClosed
      s.(main := FinalClosing(match s.cause case Some(c) => c case None => ErrClosed))
    case CallOnClose => s.(main := InOnClose, onCloseCalls := s.onCloseCalls + 1, reported := s.cause)
    case OnCloseCallsClose => s.(main := OnCloseClosing)
    case OnCloseReturns => s.(main := Returned)
    case LoopFails(l, c) => s.With(l, FailClosing(c))
    case LoopCallsClose(l) => s.With(l, CallbackClosing)
    case LoopStops(l) => s.With(l, Exiting)
    case LoopDone(l) => s.With(l, Exited).(wg := s.wg - 1)
    case CallClose(n) => s.(closers := s.closers + {n})
    case EnterOnce(a) => s.(once := Cancelling(a, s.ClosingWith(a).value))
    case CancelContext =>
      s.(once := ClosingTransport(s.once.who), cause := if s.cause == None then Some(s.once.cause) else s.cause)
    case CloseTransport => s.(once := Done, transportCloses := s.transportCloses + 1)
    case LeaveOnce(a) => s.AfterClosing(a)
  }

  ghost predicate Next(s: Conn, s': Conn) {
    exists step :: Enabled(s, step) && s' == Do(s, step)
  }

  ghost predicate StepAt(run: seq<Conn>, i: nat)
    requires i + 1 < |run|
  {
    Next(run[i], run[i + 1])
  }

  /** Any finite interleaving from a new connection. */
  ghost predicate Execution(run: seq<Conn>) {
    && run != [] && Init(run[0])
    && forall i :: 0 <= i < |run| - 1 ==> StepAt(run, i)
  }

  // ---------------------------------------------------------------------------
  // The invariant
  // ---------------------------------------------------------------------------

  function Live(pc: LoopPc): int {
    if pc == Off || pc == Exited then 0 else 1
  }

  /** No loop is in its body or on its way out of it. */
  predicate LoopsAreOver(s: Conn) {
    s.writer == Exited && s.reader in {Off, Exited} && s.beat in {Off, Exited}
  }

  predicate BeforeReader(pc: MainPc) {
    pc in {NotRun, Won, InOnOpen, OnOpenClosing, CheckErr} || pc.OpenFailed?
  }

  predicate AfterWait(pc: MainPc) {
    pc in {Closed, InOnClose, OnCloseClosing, Returned} || pc.FinalClosing?
  }

  predicate OnCloseCalled(pc: MainPc) {
    pc in {InOnClose, OnCloseClosing, Returned}
  }

  /** The body of closeOnce: its runner stays inside `closeWithCause`, the context is cancelled
      with the runner's own cause, and only then is the transport closed. */
  predicate OnceInv(s: Conn) {
    && (s.cause == None <==> s.once.Fresh? || s.once.Cancelling?)
    && (s.once.Cancelling? ==> s.ClosingWith(s.once.who) == Some(s.once.cause))
    && (s.once.ClosingTransport? ==> s.ClosingWith(s.once.who).Some?)
    && s.transportCloses == (if s.once == Done then 1 else 0)
  }

  predicate LoopsInv(s: Conn) {
    && (s.writer in {Exiting, Exited} || s.reader in {Exiting, Exited} || s.beat in {Exiting, Exited}
        ==> s.cause.Some?)
    && s.wg == Live(s.writer) + Live(s.reader) + Live(s.beat)
    && (s.writer == Off <==> s.main == NotRun || s.main == Won)
    && (BeforeReader(s.main) ==> s.reader == Off)
    && (BeforeReader(s.main) || s.main == StartBeat ==> s.beat == Off)
  }

  predicate MainInv(s: Conn) {
    && (AfterWait(s.main) ==> LoopsAreOver(s))
    && (s.main.FinalClosing? ==> s.cause == Some(s.main.cause))
    && (AfterWait(s.main) && !s.main.FinalClosing? ==> s.once == Done)
    && s.onCloseCalls == (if OnCloseCalled(s.main) then 1 else 0)
    && (OnCloseCalled(s.main) ==> s.reported == s.cause)
  }

  predicate Inv(s: Conn) {
    OnceInv(s) && LoopsInv(s) && MainInv(s)
  }

  /** What one step never takes back. */
  predicate Keeps(s: Conn, s': Conn) {
    && (s.cause.Some? ==> s'.cause == s.cause)
    && s.transportCloses <= s'.transportCloses
    && s.onCloseCalls <= s'.onCloseCalls
    && (s.onCloseCalls == 1 ==> s'.reported == s.reported)
  }

  predicate LoopStep(step: Step) {
    step.LoopFails? || step.LoopCallsClose? || step.LoopStops? || step.LoopDone?
  }

  predicate OnceStep(step: Step) {
    step.EnterOnce? || step.CancelContext? || step.CloseTransport? || step.LeaveOnce?
  }

  lemma MainStepInv(s: Conn, step: Step)
    requires Inv(s) && Enabled(s, step) && !LoopStep(step) && !OnceStep(step)
    ensures Inv(Do(s, step)) && Keeps(s, Do(s, step)) && Do(s, step).cause == s.cause
  {
  }

  lemma LoopStepInv(s: Conn, step: Step)
    requires Inv(s) && Enabled(s, step) && LoopStep(step)
    ensures Inv(Do(s, step)) && Keeps(s, Do(s, step)) && Do(s, step).cause == s.cause
  {
    match step.l
    case Writer =>
    case Reader =>
    case Beat =>
  }

  lemma OnceStepInv(s: Conn, step: Step)
    requires Inv(s) && Enabled(s, step) && OnceStep(step)
    ensures Inv(Do(s, step)) && Keeps(s, Do(s, step))
  {
    match step
    case LeaveOnce(InLoop(Writer)) =>
    case LeaveOnce(InLoop(Reader)) =>
    case LeaveOnce(InLoop(Beat)) =>
    case _ =>
  }

  lemma StepInv(s: Conn, step: Step)
    requires Inv(s) && Enabled(s, step)
    ensures Inv(Do(s, step)) && Keeps(s, Do(s, step))
  {
    if LoopStep(step) {
      LoopStepInv(s, step);
    } else if OnceStep(step) {
      OnceStepInv(s, step);
    } else {
      MainStepInv(s, step);
    }
  }

  lemma {:induction false} ExecutionInv(run: seq<Conn>, i: nat)
    requires Execution(run) && i < |run|
    ensures Inv(run[i])
  {
    if i > 0 {
      ExecutionInv(run, i - 1);
      assert StepAt(run, i - 1);
      var step :| Enabled(run[i - 1], step) && run[i] == Do(run[i - 1], step);
      StepInv(run[i - 1], step);
    }
  }

  // ---------------------------------------------------------------------------
  // Safety of every interleaving
  // ---------------------------------------------------------------------------

  /** No loop is on its way out before a cause is recorded; the transport is closed at most once;
      and OnClose is called at most once, with the recorded cause, when every loop has exited and
      the transport close has completed. */
  lemma SafeAtEveryMoment(run: seq<Conn>, i: nat, l: Loop)
    requires Execution(run) && i < |run|
    ensures run[i].Pc(l) in {Exiting, Exited} ==> run[i].cause.Some?
    ensures run[i].transportCloses <= 1 && run[i].onCloseCalls <= 1
    ensures run[i].onCloseCalls == 1 ==>
              && run[i].Pc(l) in {Off, Exited}
              && run[i].transportCloses == 1 && run[i].cause.Some? && run[i].reported == run[i].cause
  {
    ExecutionInv(run, i);
  }

  lemma KeepsIsTransitive(r: Conn, s: Conn, t: Conn)
    requires Inv(s) && Keeps(r, s) && Keeps(s, t)
    ensures Keeps(r, t)
  {
  }

  lemma {:induction false} NothingIsTakenBack(run: seq<Conn>, i: nat, j: nat)
    requires Execution(run) && i <= j < |run|
    ensures Keeps(run[i], run[j])
    decreases j
  {
    if i < j {
      NothingIsTakenBack(run, i, j - 1);
      ExecutionInv(run, j - 1);
      assert StepAt(run, j - 1);
      var step :| Enabled(run[j - 1], step) && run[j] == Do(run[j - 1], step);
      StepInv(run[j - 1], step);
      KeepsIsTransitive(run[i], run[j - 1], run[j]);
      ExecutionInv(run, i);
    }
  }

  /** The first cause never changes. */
  lemma FirstCauseStays(run: seq<Conn>, i: nat, j: nat)
    requires Execution(run) && i <= j < |run| && run[i].cause.Some?
    ensures run[j].cause == run[i].cause
  {
    NothingIsTakenBack(run, i, j);
  }

  /** OnClose is the end: from then on, no loop is ever running again. */
  lemma NothingRunsAfterOnClose(run: seq<Conn>, i: nat, j: nat, l: Loop)
    requires Execution(run) && i <= j < |run| && run[i].onCloseCalls == 1
    ensures run[j].Pc(l) in {Off, Exited} && run[j].onCloseCalls == 1 && run[j].reported == run[i].cause
  {
    NothingIsTakenBack(run, i, j);
    ExecutionInv(run, i);
    ExecutionInv(run, j);
  }

  /** The recorded cause is the one its winner of closeOnce came with, and it is never the
      closing call with which Run ends: that one always finds a cause recorded. */
  lemma CauseIsTheWinners(run: seq<Conn>, i: nat) returns (winner: Agent)
    requires Execution(run) && i + 1 < |run| && run[i].cause == None && run[i + 1].cause.Some?
    ensures run[i].ClosingWith(winner) == run[i + 1].cause
    ensures winner == Main ==> run[i].main == OnOpenClosing || run[i].main.OpenFailed?
  {
    ExecutionInv(run, i);
    assert StepAt(run, i);
    var step :| Enabled(run[i], step) && run[i + 1] == Do(run[i], step);
    if LoopStep(step) {
      LoopStepInv(run[i], step);
    } else if !OnceStep(step) {
      MainStepInv(run[i], step);
    }
    assert step == CancelContext;
    winner := run[i].once.who;
  }

  // ---------------------------------------------------------------------------
  // An open connection is served, a failed one is not
  // ---------------------------------------------------------------------------

  /** In its body, or inside a close from there. */
  predicate AtWork(pc: LoopPc) {
    pc == Running || pc.FailClosing? || pc == CallbackClosing
  }

  /** The loops that have been started behind OnOpen. */
  predicate StartedInv(s: Conn) {
    && (s.main == StartBeat ==> s.reader != Off)
    && (s.main == Waiting && s.cause == None ==> s.reader != Off && (s.beat != Off <==> s.hasHeartbeat))
  }

  lemma StartedStep(s: Conn, step: Step)
    requires LoopsInv(s) && StartedInv(s) && Enabled(s, step)
    ensures StartedInv(Do(s, step))
  {
    if LoopStep(step) {
      LoopStepKeepsStarted(s, step);
    }
  }

  lemma LoopStepKeepsStarted(s: Conn, step: Step)
    requires StartedInv(s) && Enabled(s, step) && LoopStep(step)
    ensures StartedInv(Do(s, step))
  {
    match step.l
    case Writer =>
    case Reader =>
    case Beat =>
  }

  lemma {:induction false} LoopsAreStarted(run: seq<Conn>, i: nat)
    requires Execution(run) && i < |run|
    ensures StartedInv(run[i])
  {
    if i > 0 {
      LoopsAreStarted(run, i - 1);
      ExecutionInv(run, i - 1);
      assert StepAt(run, i - 1);
      var step :| Enabled(run[i - 1], step) && run[i] == Do(run[i - 1], step);
      StartedStep(run[i - 1], step);
    }
  }

  /** While Run waits and no cause is recorded, the write and the read loop are at work, and so is
      the heartbeat loop, if there is a heartbeat. */
  lemma OpenConnHasItsLoops(run: seq<Conn>, i: nat)
    requires Execution(run) && i < |run| && run[i].main == Waiting && run[i].cause == None
    ensures AtWork(run[i].writer) && AtWork(run[i].reader)
    ensures if run[i].hasHeartbeat then AtWork(run[i].beat) else run[i].beat == Off
  {
    ExecutionInv(run, i);
    LoopsAreStarted(run, i);
  }

  /** OnOpen has failed, or has come back to a closed connection. */
  predicate NotOpened(s: Conn) {
    && s.reader == s.beat == Off
    && (s.main.OpenFailed?
        || (s.cause.Some? && (s.main in {CheckErr, Waiting} || AfterWait(s.main))))
  }

  /** A connection that is closed in OnOpen, or by its failure, never gets a read or a heartbeat
      loop. */
  lemma {:induction false} NotOpenedGetsNoReader(run: seq<Conn>, i: nat, j: nat)
    requires Execution(run) && i <= j < |run|
    requires run[i].main.OpenFailed? || (run[i].main == CheckErr && run[i].cause.Some?)
    ensures NotOpened(run[j])
    decreases j
  {
    if i == j {
      ExecutionInv(run, i);
    } else {
      NotOpenedGetsNoReader(run, i, j - 1);
      assert StepAt(run, j - 1);
      var step :| Enabled(run[j - 1], step) && run[j] == Do(run[j - 1], step);
      ExecutionInv(run, j - 1);
      NotOpenedStep(run[j - 1], step);
    }
  }

  lemma NotOpenedStep(s: Conn, step: Step)
    requires OnceInv(s) && NotOpened(s) && Enabled(s, step)
    ensures NotOpened(Do(s, step))
  {
    match step
    case LeaveOnce(InLoop(l)) =>
    case LoopFails(l, _) =>
    case LoopCallsClose(l) =>
    case LoopStops(l) =>
    case LoopDone(l) =>
    case _ =>
  }

  /** A failure takes its cause into `closeWithCause`, and a call of Close takes ErrClosed there. */
  lemma FailuresClose(s: Conn, step: Step)
    requires Enabled(s, step)
    ensures match step
            case OnOpenReturns(Some(c)) => Do(s, step).ClosingWith(Main) == Some(c)
            case LoopFails(l, c) => Do(s, step).ClosingWith(InLoop(l)) == Some(c)
            case OnOpenCallsClose => Do(s, step).ClosingWith(Main) == Some(ErrClosed)
            case OnCloseCallsClose => Do(s, step).ClosingWith(Main) == Some(ErrClosed)
            case LoopCallsClose(l) => Do(s, step).ClosingWith(InLoop(l)) == Some(ErrClosed)
            case CallClose(n) => Do(s, step).ClosingWith(Outside(n)) == Some(ErrClosed)
            case _ => true
  {
  }

  /** And nobody comes back from there before the transport is closed and a cause recorded. */
  lemma ClosingReturnsClosed(s: Conn, step: Step, a: Agent)
    requires OnceInv(s) && LoopsInv(s) && Enabled(s, step) && s.ClosingWith(a).Some?
    ensures Do(s, step).ClosingWith(a) == s.ClosingWith(a) || (s.cause.Some? && s.transportCloses == 1)
  {
    if LoopStep(step) {
      LoopStepKeepsClosing(s, step, a);
    }
  }

  lemma LoopStepKeepsClosing(s: Conn, step: Step, a: Agent)
    requires Enabled(s, step) && LoopStep(step) && s.ClosingWith(a).Some?
    ensures Do(s, step).ClosingWith(a) == s.ClosingWith(a)
  {
    match step.l
    case Writer =>
    case Reader =>
    case Beat =>
  }

  // ---------------------------------------------------------------------------
  // Winding down: once a cause is recorded, Run returns
  // ---------------------------------------------------------------------------

  function LoopRank(pc: LoopPc): nat {
    match pc
    case Off => 0
    case Exited => 0
    case Exiting => 1
    case FailClosing(_) => 2
    case Running => 3
    case CallbackClosing => 4
  }

  function MainRank(pc: MainPc): nat {
    match pc
    case NotRun => 13
    case Won => 12
    case OnOpenClosing => 11
    case InOnOpen => 10
    case OpenFailed(_) => 9
    case CheckErr => 8
    case StartBeat => 7
    case Waiting => 6
    case FinalClosing(_) => 5
    case Closed => 4
    case OnCloseClosing => 3
    case InOnClose => 2
    case Returned => 0
  }

  function Rank(s: Conn): nat {
    5 * MainRank(s.main) + LoopRank(s.writer) + LoopRank(s.reader) + LoopRank(s.beat)
    + (if s.once == Done then 0 else 1) + |s.closers|
  }

  /** A new call of Close, by a callback or from outside, or a repeated call of Run. */
  predicate NewCall(s: Conn, step: Step) {
    || step.OnOpenCallsClose? || step.OnCloseCallsClose? || step.LoopCallsClose? || step.CallClose?
    || (step.CallRun? && s.main != NotRun)
  }

  lemma LoopStepWindsDown(s: Conn, step: Step)
    requires s.cause.Some? && Enabled(s, step) && LoopStep(step) && !NewCall(s, step)
    ensures Rank(Do(s, step)) < Rank(s)
  {
    match step.l
    case Writer =>
    case Reader =>
    case Beat =>
  }

  lemma LoopLeavesCloseNearerTheEnd(s: Conn, l: Loop)
    requires Enabled(s, LeaveOnce(InLoop(l)))
    ensures Rank(Do(s, LeaveOnce(InLoop(l)))) < Rank(s)
  {
    match l
    case Writer =>
    case Reader =>
    case Beat =>
  }

  lemma LeavingWindsDown(s: Conn, a: Agent)
    requires Enabled(s, LeaveOnce(a))
    ensures Rank(Do(s, LeaveOnce(a))) < Rank(s)
  {
    match a
    case Main =>
    case Outside(n) => assert |s.closers - {n}| == |s.closers| - 1;
    case InLoop(l) => LoopLeavesCloseNearerTheEnd(s, l);
  }

  /** Every other step, failures included, brings the end nearer. */
  lemma EveryStepWindsDown(s: Conn, step: Step)
    requires Inv(s) && s.cause.Some? && Enabled(s, step) && !NewCall(s, step)
    ensures Rank(Do(s, step)) < Rank(s)
  {
    if LoopStep(step) {
      LoopStepWindsDown(s, step);
    } else if step.LeaveOnce? {
      LeavingWindsDown(s, step.a);
    }
  }

  function LoopWayOut(l: Loop, pc: LoopPc): Step {
    match pc
    case Running => LoopStops(l)
    case Exiting => LoopDone(l)
    case _ => LeaveOnce(InLoop(l))
  }

  function MainWayOut(pc: MainPc): Step {
    match pc
    case NotRun => CallRun
    case Won => StartWriter
    case InOnOpen => OnOpenReturns(None)
    case CheckErr => CheckAndStartReader
    case StartBeat => StartHeartbeat
    case Waiting => WaitReturns
    case Closed => CallOnClose
    case InOnClose => OnCloseReturns
    case _ => LeaveOnce(Main)
  }

  /** A step that is always possible until Run has returned. */
  function WayOut(s: Conn): Step {
    if s.once != Done then CloseTransport
    else if s.writer !in {Off, Exited} then LoopWayOut(Writer, s.writer)
    else if s.reader !in {Off, Exited} then LoopWayOut(Reader, s.reader)
    else if s.beat !in {Off, Exited} then LoopWayOut(Beat, s.beat)
    else MainWayOut(s.main)
  }

  lemma NeverStuck(s: Conn)
    requires Inv(s) && s.cause.Some? && s.main != Returned
    ensures Enabled(s, WayOut(s)) && !NewCall(s, WayOut(s))
  {
  }

  /** However the run has gone, once a cause is recorded it can be continued until Run returns. */
  lemma {:induction false} RunCanReturn(run: seq<Conn>) returns (rest: seq<Conn>)
    requires Execution(run) && run[|run| - 1].cause.Some?
    ensures Execution(run + rest)
    ensures (run + rest)[|run + rest| - 1].main == Returned
    ensures |rest| <= Rank(run[|run| - 1])
    decreases Rank(run[|run| - 1])
  {
    var s := run[|run| - 1];
    ExecutionInv(run, |run| - 1);
    if s.main == Returned {
      rest := [];
      assert run + rest == run;
    } else {
      NeverStuck(s);
      var s' := Do(s, WayOut(s));
      EveryStepWindsDown(s, WayOut(s));
      StepInv(s, WayOut(s));
      var longer := run + [s'];
      assert Next(s, s');
      forall i: nat | i + 1 < |longer|
        ensures StepAt(longer, i)
      {
        assert i + 1 < |run| ==> StepAt(run, i);
      }
      var more := RunCanReturn(longer);
      rest := [s'] + more;
      assert longer + more == run + rest;
    }
  }
}
