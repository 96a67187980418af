/** The client, `common/network/session_client.go`: any number of callers of `DialContext`,
    `Wait` and `Close`, the one dial that wins, and the goroutine that runs the connection,
    interleaved at their atomic steps. A section under the lock is one step. */
module SessionClient {

  import opened Basics

  datatype Error = ErrClosed | DialError(id: int) | NewConnError | ContextError | ConnError(id: int)

  datatype State = New | Running | Closed

  /** Publishing the result: waitErr is written before `done` is closed. */
  datatype Finish = Writing(err: Error) | ClosingDone | Finished

  /** The one call of DialContext that found the client new. */
  datatype Dial =
    | NotDialed
    | Dialing                                   // inside Dialer.DialContext
    | GotError(err: Error)                      // with or without a transport
    | GotTransport
    | Publishing
    | NotPublished(err: Error)
    | Failing(finish: Finish)
    | Publish                                   // published; runConn not started yet
    | DialOver

  datatype Run = NotRun | InRun | Ending(finish: Finish)

  /** The body of closeOnce. */
  datatype Close =
    | NotClosing
    | Cancelling(prev: State, cancel: bool, conn: bool)
    | ClosingConn(prev: State, conn: bool)
    | Concluding(prev: State)
    | Refusing(finish: Finish)                  // never dialed: Close publishes the result
    | CloseOver

  datatype Client = Client(
    state: State,
    dial: Dial, run: Run, close: Close,
    dialCancel: bool,                           // the field is set
    dialCancelled: bool,                        // the dial context is cancelled
    transport: Option<nat>,                     // the closes of what the dialer produced
    connClosed: bool,                           // the connection's own closeOnce
    published: bool,                            // the field conn is set
    waitErr: Option<Error>,
    doneCloses: nat,
    waiting: set<nat>, waited: map<nat, Option<Error>>)

  predicate Init(s: Client) {
    s == Client(New, NotDialed, NotRun, NotClosing, false, false, None, false, false, None, 0, {}, map[])
  }

  /** `Conn.Close` on the connection made of the dialed transport. */
  function CloseConn(s: Client): Client {
    if s.connClosed || s.transport.None? then s
    else s.(connClosed := true, transport := Some(s.transport.value + 1))
  }

  function Conclude(s: Client, finish: Finish): (Client, Finish) {
    match finish
    case Writing(err) => (s.(waitErr := Some(err)), ClosingDone)
    case ClosingDone => (s.(doneCloses := s.doneCloses + 1), Finished)
    case Finished => (s, Finished)
  }

  // ---------------------------------------------------------------------------
  // Atomic steps
  // ---------------------------------------------------------------------------

  datatype Step =
    // DialContext
    | CallDial                                  // wins, or returns an error at once
    | DialerReturns(produced: bool, err: Option<Error>)
    | DropFailed
    | NewConn
    | CheckAndPublish
    | CloseUnpublished
    | DialFinishes
    | StartRun
    | CallerCancels                             // the caller's own context
    // runConn
    | ConnCloses                                // a failure inside Run, or the caller of DialContext
    | RunReturns(id: int)
    | RunFinishes
    // Close
    | EnterClose | CancelDial | ClosePublished | ConcludeClose | CloseFinishes
    // Wait
    | CallWait(n: nat) | WaitReturns(n: nat)

  predicate Enabled(s: Client, step: Step) {
    match step
    case CallDial => true
    case DialerReturns(_, _) => s.dial == Dialing
    case DropFailed => s.dial.GotError?
    case NewConn => s.dial == GotTransport
    case CheckAndPublish => s.dial == Publishing
    case CloseUnpublished => s.dial.NotPublished?
    case DialFinishes => s.dial.Failing? && s.dial.finish != Finished
    case StartRun => s.dial == Publish
    case CallerCancels => s.dial != NotDialed
    case ConnCloses => s.published
    case RunReturns(_) => s.run == InRun && s.connClosed
    case RunFinishes => s.run.Ending? && s.run.finish != Finished
    case EnterClose => s.close == NotClosing
    case CancelDial => s.close.Cancelling?
    case ClosePublished => s.close.ClosingConn?
    case ConcludeClose => s.close.Concluding?
    case CloseFinishes => s.close.Refusing? && s.close.finish != Finished
    case CallWait(n) => n !in s.waiting && n !in s.waited
    case WaitReturns(n) => n in s.waiting && s.doneCloses > 0
  }

  function Do(s: Client, step: Step): Client
    requires Enabled(s, step)
  {
    match step
    case CallDial => if s.state == New then s.(state := Running, dial := Dialing, dialCancel := true) else s
    case DialerReturns(produced, err) =>
      s.(transport := if produced then Some(0) else None,
         dial := match err case Some(e) => GotError(e) case None => GotTransport)
    case DropFailed =>
      s.(transport := if s.transport.Some? then Some(s.transport.value + 1) else None,
         dial := Failing(Writing(s.dial.err)))
    case NewConn => s.(dial := if s.transport.Some? then Publishing else Failing(Writing(NewConnError)))
    case CheckAndPublish =>
      if s.state == Closed then s.(dialCancel := false, dial := NotPublished(ErrClosed))
      else if s.dialCancelled then s.(dialCancel := false, dial := NotPublished(ContextError))
      else s.(dialCancel := false, dial := Publish, published := true)
    case CloseUnpublished => CloseConn(s).(dial := Failing(Writing(s.dial.err)))
    case DialFinishes =>
      var (t, finish) := Conclude(s, s.dial.finish);
      t.(dial := if finish == Finished then DialOver else Failing(finish))
    case StartRun => s.(run := InRun, dial := DialOver)
    case CallerCancels => s.(dialCancelled := true)
    case ConnCloses => CloseConn(s)
    case RunReturns(id) => s.(run := Ending(Writing(ConnError(id))))
    case RunFinishes =>
      var (t, finish) := Conclude(s, s.run.finish);
      t.(run := Ending(finish))
    case EnterClose =>
      s.(state := Closed, close := Cancelling(s.state, s.dialCancel, s.published), dialCancel := false)
    case CancelDial =>
      s.(dialCancelled := s.dialCancelled || s.close.cancel, close := ClosingConn(s.close.prev, s.close.conn))
    case ClosePublished =>
      (if s.close.conn then CloseConn(s) else s).(close := Concluding(s.close.prev))
    case ConcludeClose => s.(close := if s.close.prev == New then Refusing(Writing(ErrClosed)) else CloseOver)
    case CloseFinishes =>
      var (t, finish) := Conclude(s, s.close.finish);
      t.(close := if finish == Finished then CloseOver else Refusing(finish))
    case CallWait(n) => if s.state == New then s else s.(waiting := s.waiting + {n})
    case WaitReturns(n) => s.(waiting := s.waiting - {n}, waited := s.waited[n := s.waitErr])
  }

  ghost predicate Next(s: Client, s': Client) {
    exists step :: Enabled(s, step) && s' == Do(s, step)
  }

  ghost predicate StepAt(run: seq<Client>, i: nat)
    requires i + 1 < |run|
  {
    Next(run[i], run[i + 1])
  }

  ghost predicate Execution(run: seq<Client>) {
    && run != [] && Init(run[0])
    && forall i :: 0 <= i < |run| - 1 ==> StepAt(run, i)
  }

  // ---------------------------------------------------------------------------
  // The invariant
  // ---------------------------------------------------------------------------

  /** Who will publish the result: nobody yet, the dial, the run, or Close on a client that was
      never dialed. There is never more than one. */
  datatype Duty = NoDuty | DutyOf(finish: Option<Finish>)

  function DialDuty(dial: Dial): Duty {
    match dial
    case NotDialed => NoDuty
    case DialOver => NoDuty
    case Failing(f) => DutyOf(Some(f))
    case _ => DutyOf(None)
  }

  function RunDuty(run: Run): Duty {
    match run
    case NotRun => NoDuty
    case InRun => DutyOf(None)
    case Ending(f) => if f == Finished then NoDuty else DutyOf(Some(f))
  }

  function CloseDuty(close: Close): Duty {
    match close
    case Cancelling(prev, _, _) => if prev == New then DutyOf(None) else NoDuty
    case ClosingConn(prev, _) => if prev == New then DutyOf(None) else NoDuty
    case Concluding(prev) => if prev == New then DutyOf(None) else NoDuty
    case Refusing(f) => DutyOf(Some(f))
    case _ => NoDuty
  }

  function Duties(s: Client): nat {
    (if DialDuty(s.dial) == NoDuty then 0 else 1) + (if RunDuty(s.run) == NoDuty then 0 else 1)
    + (if CloseDuty(s.close) == NoDuty then 0 else 1)
  }

  predicate Wrote(duty: Duty) {
    duty.DutyOf? && duty.finish == Some(ClosingDone)
  }

  /** From the first dial or close on, the result is to be published or published. */
  predicate ResultInv(s: Client) {
    && s.doneCloses + Duties(s) == (if s.state == New then 0 else 1)
    && (Wrote(DialDuty(s.dial)) || Wrote(RunDuty(s.run)) || Wrote(CloseDuty(s.close)) || s.doneCloses > 0
        ==> s.waitErr.Some?)
    && DialDuty(s.dial) != DutyOf(Some(Finished)) && CloseDuty(s.close) != DutyOf(Some(Finished))
  }

  predicate StateInv(s: Client) {
    && (s.state == New ==> s.dial == NotDialed && s.close == NotClosing)
    && (s.state == Closed <==> s.close != NotClosing)
    && (s.dial == NotDialed ==> s.run == NotRun && !s.published && s.transport == None)
    && (CloseDuty(s.close) != NoDuty ==> s.dial == NotDialed)
  }

  predicate BeforeTransport(dial: Dial) {
    dial == NotDialed || dial == Dialing
  }

  predicate HoldsTransport(dial: Dial) {
    dial.GotError? || dial == GotTransport || dial == Publishing || dial.NotPublished?
  }

  /** The transport is with the dial, with the published connection, or closed once. */
  predicate TransportInv(s: Client) {
    && (BeforeTransport(s.dial) ==> s.transport == None && !s.connClosed)
    && (HoldsTransport(s.dial) ==> s.transport in {None, Some(0)} && !s.connClosed)
    && (s.dial == Publishing || s.dial.NotPublished? || s.published ==> s.transport.Some?)
    && (s.published <==> s.dial == Publish || s.run != NotRun)
    && (s.published ==> s.transport == Some(if s.connClosed then 1 else 0))
    && (!s.published && !HoldsTransport(s.dial) ==> s.transport in {None, Some(1)})
    && (s.run != NotRun ==> s.dial == DialOver)
    && (s.run.Ending? ==> s.connClosed)
    // Close did not miss a connection
    && (s.close.Cancelling? ==> s.close.conn == s.published)
    && (s.close.ClosingConn? ==> s.close.conn == s.published)
    && (s.published && (s.close.Concluding? || s.close.Refusing? || s.close == CloseOver) ==> s.connClosed)
  }

  ghost predicate WaitInv(s: Client) {
    && (s.waiting != {} ==> s.state != New)
    && (s.waited != map[] ==> s.doneCloses > 0)
    && (forall n :: n in s.waited ==> s.waited[n] == s.waitErr)
  }

  ghost predicate Inv(s: Client) {
    ResultInv(s) && StateInv(s) && TransportInv(s) && WaitInv(s)
  }

  predicate DialStep(step: Step) {
    step.CallDial? || step.DialerReturns? || step.DropFailed? || step.NewConn? || step.CheckAndPublish?
    || step.CloseUnpublished? || step.DialFinishes? || step.StartRun?
  }

  lemma DialKeepsResult(s: Client, step: Step)
    requires ResultInv(s) && StateInv(s) && TransportInv(s) && Enabled(s, step) && DialStep(step)
    ensures ResultInv(Do(s, step))
  {
  }

  lemma OthersKeepResult(s: Client, step: Step)
    requires ResultInv(s) && StateInv(s) && TransportInv(s) && Enabled(s, step) && !DialStep(step)
    ensures ResultInv(Do(s, step))
  {
  }

  lemma StateKept(s: Client, step: Step)
    requires StateInv(s) && TransportInv(s) && Enabled(s, step)
    ensures StateInv(Do(s, step))
  {
  }

  lemma TransportKept(s: Client, step: Step)
    requires StateInv(s) && TransportInv(s) && Enabled(s, step)
    ensures TransportInv(Do(s, step))
  {
  }

  lemma WaitKept(s: Client, step: Step)
    requires Inv(s) && Enabled(s, step)
    ensures WaitInv(Do(s, step))
  {
  }

  lemma StepInv(s: Client, step: Step)
    requires Inv(s) && Enabled(s, step)
    ensures Inv(Do(s, step))
  {
    if DialStep(step) {
      DialKeepsResult(s, step);
    } else {
      OthersKeepResult(s, step);
    }
    StateKept(s, step);
    TransportKept(s, step);
    WaitKept(s, step);
  }

  lemma {:induction false} ExecutionInv(run: seq<Client>, i: nat)
    requires Execution(run) && i < |run|
    ensures Inv(run[i])
  {
    if i > 0 {
      ExecutionInv(run, i - 1);
      assert StepAt(run, i - 1);
      var step :| Enabled(run[i - 1], step) && run[i] == Do(run[i - 1], step);
      StepInv(run[i - 1], step);
    }
  }

  // ---------------------------------------------------------------------------
  // Safety of every interleaving
  // ---------------------------------------------------------------------------

  /** `done` is closed at most once (a second close would panic), and exactly once when a dial or
      a close has happened and everything they set going is over. Every waiter that came back got
      the one published result. */
  lemma DoneIsClosedOnce(run: seq<Client>, i: nat)
    requires Execution(run) && i < |run|
    ensures run[i].doneCloses <= 1
    ensures var s := run[i];
            && (s.dial == DialOver || s.close == CloseOver)
            && s.dial in {NotDialed, DialOver} && s.close in {NotClosing, CloseOver}
            && s.run in {NotRun, Ending(Finished)}
            ==> s.doneCloses == 1 && s.waitErr.Some?
    ensures forall n :: n in run[i].waited ==> run[i].doneCloses == 1 && run[i].waited[n] == run[i].waitErr
  {
    ExecutionInv(run, i);
  }

  /** When Close and the dial are both over, a transport the dial produced has been closed, once;
      it is never closed twice. */
  lemma NoTransportLeaks(run: seq<Client>, i: nat)
    requires Execution(run) && i < |run|
    ensures run[i].transport.Some? ==> run[i].transport.value <= 1
    ensures run[i].close == CloseOver && run[i].dial == DialOver && run[i].transport.Some? ==>
              run[i].transport == Some(1)
    ensures run[i].dial == DialOver && !run[i].published && run[i].transport.Some? ==> run[i].transport == Some(1)
  {
    ExecutionInv(run, i);
  }

  /** The state only moves from New to Running to Closed, or from New to Closed; a published
      result is final; and a wait that has returned has returned. */
  predicate Keeps(s: Client, s': Client) {
    && (s.state == Running ==> s'.state != New)
    && (s.state == Closed ==> s'.state == Closed)
    && (s.doneCloses == 1 ==> s'.doneCloses == 1 && s'.waitErr == s.waitErr)
    && (forall n :: n in s.waited ==> n in s'.waited)
  }

  lemma StepKeeps(s: Client, step: Step)
    requires Inv(s) && Enabled(s, step)
    ensures Keeps(s, Do(s, step))
  {
    StepInv(s, step);
  }

  lemma NextKeeps(s: Client, s': Client)
    requires Inv(s) && Next(s, s')
    ensures Keeps(s, s')
  {
    var step :| Enabled(s, step) && s' == Do(s, step);
    StepKeeps(s, step);
  }

  lemma KeepsIsTransitive(r: Client, s: Client, t: Client)
    requires Keeps(r, s) && Keeps(s, t)
    ensures Keeps(r, t)
  {
  }

  lemma {:induction false} NothingIsTakenBack(run: seq<Client>, i: nat, j: nat)
    requires Execution(run) && i <= j < |run|
    ensures Keeps(run[i], run[j])
    decreases j
  {
    if i < j {
      NothingIsTakenBack(run, i, j - 1);
      ExecutionInv(run, j - 1);
      assert StepAt(run, j - 1);
      NextKeeps(run[j - 1], run[j]);
      KeepsIsTransitive(run[i], run[j - 1], run[j]);
    }
  }

  /** All waiters agree, whenever they come back. */
  lemma WaitersAgree(run: seq<Client>, i: nat, n: nat, j: nat, m: nat)
    requires Execution(run) && i <= j < |run| && n in run[i].waited && m in run[j].waited
    ensures run[i].waited[n].Some? && run[i].waited[n] == run[j].waited[m]
  {
    ExecutionInv(run, i);
    ExecutionInv(run, j);
    NothingIsTakenBack(run, i, j);
  }

  /** From the first dial or close on, somebody still owes the result or it is published, so no
      waiter waits for nothing; and the one who owes it can go on: the dialer has to return, or
      a connection that is open has to end, or a step is possible at once. */
  lemma WaitersAreNotForgotten(run: seq<Client>, i: nat) returns (step: Step)
    requires Execution(run) && i < |run| && run[i].waiting != {} && run[i].doneCloses == 0
    ensures Enabled(run[i], step)
    ensures DialStep(step) || step.ConnCloses? || step.RunReturns? || step.RunFinishes?
            || step.CancelDial? || step.ClosePublished? || step.ConcludeClose? || step.CloseFinishes?
  {
    var s := run[i];
    ExecutionInv(run, i);
    step := if DialDuty(s.dial) != NoDuty then
              match s.dial
              case Dialing => DialerReturns(false, Some(ErrClosed))
              case GotError(_) => DropFailed
              case GotTransport => NewConn
              case Publishing => CheckAndPublish
              case NotPublished(_) => CloseUnpublished
              case Failing(_) => DialFinishes
              case _ => StartRun
            else if RunDuty(s.run) != NoDuty then
              (if s.run == InRun then (if s.connClosed then RunReturns(0) else ConnCloses) else RunFinishes)
            else
              match s.close
              case Cancelling(_, _, _) => CancelDial
              case ClosingConn(_, _) => ClosePublished
              case Concluding(_) => ConcludeClose
              case _ => CloseFinishes;
  }

  // ---------------------------------------------------------------------------
  // What the result says
  // ---------------------------------------------------------------------------

  /** The step from `s` to `t` is the reason for result `e`: the dialer fails with it; there is no
      transport to make a connection of; the client is closed, or else the dial cancelled, before the
      connection is published; the connection has run to its end; or Close comes before any dial. */
  predicate IsReason(s: Client, t: Client, e: Error) {
    || (s.dial == Dialing && t.dial == GotError(e))
    || (s.dial == GotTransport && s.transport == None && e == NewConnError)
    || (s.dial == Publishing && s.state == Closed && e == ErrClosed)
    || (s.dial == Publishing && s.state != Closed && s.dialCancelled && e == ContextError)
    || (s.run == InRun && s.connClosed && t.run == Ending(Writing(e)) && e.ConnError?)
    || (s.state == New && t.state == Closed && e == ErrClosed)
  }

  ghost predicate HasReason(run: seq<Client>, i: nat, e: Error)
    requires i < |run|
  {
    exists j: nat :: j < i && IsReason(run[j], run[j + 1], e)
  }

  predicate DialPends(dial: Dial, e: Error) {
    dial in {GotError(e), NotPublished(e), Failing(Writing(e))}
  }

  predicate ClosePends(close: Close, e: Error) {
    || (e == ErrClosed && (close.Cancelling? || close.ClosingConn? || close.Concluding?) && close.prev == New)
    || close == Refusing(Writing(e))
  }

  /** The error is the result or on its way there. */
  predicate Pends(s: Client, e: Error) {
    DialPends(s.dial, e) || s.run == Ending(Writing(e)) || ClosePends(s.close, e) || s.waitErr == Some(e)
  }

  lemma PendingComesFrom(s: Client, step: Step, e: Error)
    requires Enabled(s, step) && Pends(Do(s, step), e)
    ensures Pends(s, e) || IsReason(s, Do(s, step), e)
  {
    var t := Do(s, step);
    if DialPends(t.dial, e) {
      DialPendsFrom(s, step, e);
    } else if t.run == Ending(Writing(e)) {
      RunPendsFrom(s, step, e);
    } else if ClosePends(t.close, e) {
      ClosePendsFrom(s, step, e);
    } else {
      ResultFrom(s, step, e);
    }
  }

  lemma DialPendsFrom(s: Client, step: Step, e: Error)
    requires Enabled(s, step) && DialPends(Do(s, step).dial, e)
    ensures Pends(s, e) || IsReason(s, Do(s, step), e)
  {
    if !DialStep(step) {
      assert Do(s, step).dial == s.dial;
    }
  }

  lemma RunPendsFrom(s: Client, step: Step, e: Error)
    requires Enabled(s, step) && Do(s, step).run == Ending(Writing(e))
    ensures Pends(s, e) || IsReason(s, Do(s, step), e)
  {
  }

  lemma ClosePendsFrom(s: Client, step: Step, e: Error)
    requires Enabled(s, step) && ClosePends(Do(s, step).close, e)
    ensures Pends(s, e) || IsReason(s, Do(s, step), e)
  {
  }

  lemma ResultFrom(s: Client, step: Step, e: Error)
    requires Enabled(s, step) && Do(s, step).waitErr == Some(e)
    ensures Pends(s, e) || IsReason(s, Do(s, step), e)
  {
    match step
    case DialFinishes => assert s.waitErr == Some(e) || s.dial == Failing(Writing(e));
    case RunFinishes => assert s.waitErr == Some(e) || s.run == Ending(Writing(e));
    case CloseFinishes => assert s.waitErr == Some(e) || s.close == Refusing(Writing(e));
    case _ => assert s.waitErr == Some(e);
  }

  lemma {:induction false} PendingHasReason(run: seq<Client>, i: nat, e: Error)
    requires Execution(run) && i < |run| && Pends(run[i], e)
    ensures HasReason(run, i, e)
  {
    if i > 0 {
      assert StepAt(run, i - 1);
      var step :| Enabled(run[i - 1], step) && run[i] == Do(run[i - 1], step);
      PendingComesFrom(run[i - 1], step, e);
      if IsReason(run[i - 1], run[i], e) {
      } else {
        PendingHasReason(run, i - 1, e);
      }
    }
  }

  /** What every waiter gets has happened before. */
  lemma ResultSaysWhy(run: seq<Client>, i: nat, n: nat)
    requires Execution(run) && i < |run| && n in run[i].waited
    ensures run[i].waited[n].Some? && HasReason(run, i, run[i].waited[n].value)
  {
    ExecutionInv(run, i);
    PendingHasReason(run, i, run[i].waitErr.value);
  }

  /** A dial that nobody closes or cancels publishes its connection, and one that does not publish
      it has one of the reasons. Wait blocks unless nothing has been dialed or closed. */
  lemma DialStepsOn(s: Client, step: Step)
    requires Inv(s) && Enabled(s, step)
    ensures s.dial == GotTransport && s.transport.Some? && Do(s, step).dial != s.dial ==> Do(s, step).dial == Publishing
    ensures s.dial == Publishing && Do(s, step).dial != s.dial ==>
              (Do(s, step).published <==> s.state != Closed && !s.dialCancelled)
    ensures s.dial == Publish && Do(s, step).dial != s.dial ==> Do(s, step).run == InRun
    ensures match step
            case DialerReturns(produced, err) =>
              && (Do(s, step).transport.Some? <==> produced)
              && Do(s, step).dial == if err == None then GotTransport else GotError(err.value)
            case CallWait(n) => n in Do(s, step).waiting <==> s.state != New
            case RunReturns(id) => Do(s, step).run == Ending(Writing(ConnError(id)))
            case _ => true
  {
  }

  /** Close has cancelled a dial that is still going on. */
  predicate CancelInv(s: Client) {
    s.dial == Dialing ==>
      match s.close
      case NotClosing => s.dialCancel
      case Cancelling(_, cancel, _) => cancel
      case _ => s.dialCancelled
  }

  lemma CancelStep(s: Client, step: Step)
    requires StateInv(s) && CancelInv(s) && Enabled(s, step)
    ensures CancelInv(Do(s, step))
  {
  }

  lemma {:induction false} CloseCancelsDial(run: seq<Client>, i: nat)
    requires Execution(run) && i < |run|
    ensures CancelInv(run[i])
    ensures run[i].close == CloseOver && run[i].dial == Dialing ==> run[i].dialCancelled
  {
    if i > 0 {
      CloseCancelsDial(run, i - 1);
      assert StepAt(run, i - 1);
      var step :| Enabled(run[i - 1], step) && run[i] == Do(run[i - 1], step);
      ExecutionInv(run, i - 1);
      CancelStep(run[i - 1], step);
    }
  }

  /** Once the dial is cancelled, by its caller or by Close, or the client is closed, a connection that
      is not published never is. */
  lemma {:induction false} NeverPublishedThen(run: seq<Client>, i: nat, j: nat)
    requires Execution(run) && i <= j < |run| && !run[i].published
    requires run[i].dialCancelled || run[i].state == Closed
             || (i > 0 && run[i - 1].dial != NotDialed && run[i] == Do(run[i - 1], CallerCancels))
    ensures !run[j].published && (run[j].dialCancelled || run[j].state == Closed)
    decreases j
  {
    if i < j {
      NeverPublishedThen(run, i, j - 1);
      assert StepAt(run, j - 1);
      var step :| Enabled(run[j - 1], step) && run[j] == Do(run[j - 1], step);
      UnpublishedStays(run[j - 1], step);
    }
  }

  lemma UnpublishedStays(s: Client, step: Step)
    requires !s.published && (s.dialCancelled || s.state == Closed) && Enabled(s, step)
    ensures !Do(s, step).published && (Do(s, step).dialCancelled || Do(s, step).state == Closed)
  {
  }

  // ---------------------------------------------------------------------------
  // A whole life
  // ---------------------------------------------------------------------------

  lemma OneStepMore(run: seq<Client>, step: Step) returns (next: seq<Client>)
    requires Execution(run) && Enabled(run[|run| - 1], step)
    ensures Execution(next) && |next| == |run| + 1 && run <= next && next[|run|] == Do(run[|run| - 1], step)
  {
    next := run + [Do(run[|run| - 1], step)];
    assert Next(run[|run| - 1], next[|run|]);
    forall i | 0 <= i < |next| - 1
      ensures StepAt(next, i)
    {
      assert i + 1 < |run| ==> StepAt(run, i);
    }
  }

  /** A new client can dial, and its connection be published and run. */
  lemma DialCanSucceed(run: seq<Client>) returns (longer: seq<Client>)
    requires Execution(run) && run[|run| - 1].state == New
    ensures Execution(longer) && run <= longer
    ensures var s := longer[|longer| - 1];
            s.published && s.run == InRun && s.transport == Some(0) && s.state == Running && s.dial == DialOver
  {
    ExecutionInv(run, |run| - 1);
    NewIsUncancelled(run, |run| - 1);
    var dialing := OneStepMore(run, CallDial);
    var dialed := OneStepMore(dialing, DialerReturns(true, None));
    var made := OneStepMore(dialed, NewConn);
    var published := OneStepMore(made, CheckAndPublish);
    longer := OneStepMore(published, StartRun);
  }

  lemma {:induction false} NewIsUncancelled(run: seq<Client>, i: nat)
    requires Execution(run) && i < |run| && run[i].state == New
    ensures !run[i].dialCancelled
  {
    if i > 0 {
      assert StepAt(run, i - 1);
      var step :| Enabled(run[i - 1], step) && run[i] == Do(run[i - 1], step);
      ExecutionInv(run, i - 1);
      StaysNewUncancelled(run[i - 1], step);
      NewIsUncancelled(run, i - 1);
    }
  }

  lemma StaysNewUncancelled(s: Client, step: Step)
    requires StateInv(s) && Enabled(s, step) && Do(s, step).state == New
    ensures s.state == New && Do(s, step).dialCancelled == s.dialCancelled
  {
  }

  /** And a connection that runs can end, with its own error as the result of Wait. */
  lemma RunCanEnd(run: seq<Client>, id: int, n: nat) returns (longer: seq<Client>)
    requires Execution(run) && run[|run| - 1].run == InRun
    requires n !in run[|run| - 1].waiting && n !in run[|run| - 1].waited
    ensures Execution(longer) && run <= longer
    ensures var s := longer[|longer| - 1];
            n in s.waited && s.waited[n] == Some(ConnError(id)) && s.transport == Some(1) && s.doneCloses == 1
  {
    ExecutionInv(run, |run| - 1);
    var waiting := OneStepMore(run, CallWait(n));
    var closed := OneStepMore(waiting, ConnCloses);
    var ended := OneStepMore(closed, RunReturns(id));
    longer := ResultCanBeGot(ended, id, n);
  }

  lemma ResultCanBeGot(run: seq<Client>, id: int, n: nat) returns (longer: seq<Client>)
    requires Execution(run) && run[|run| - 1].run == Ending(Writing(ConnError(id))) && n in run[|run| - 1].waiting
    ensures Execution(longer) && run <= longer
    ensures var s := longer[|longer| - 1];
            n in s.waited && s.waited[n] == Some(ConnError(id)) && s.transport == Some(1) && s.doneCloses == 1
  {
    ExecutionInv(run, |run| - 1);
    var written := OneStepMore(run, RunFinishes);
    var done := OneStepMore(written, RunFinishes);
    longer := OneStepMore(done, WaitReturns(n));
    ExecutionInv(longer, |longer| - 1);
  }
}
