/** What the WebSocket listener, `common/network/ws_impl.go`, can always get done: a connection that
    is offered is delivered, and Close returns. */
module WsListenerProgress {

  import opened Basics
  import opened WsListener

  lemma OneStepMore(run: seq<Listener>, step: Step) returns (next: seq<Listener>)
    requires Execution(run) && Enabled(run[|run| - 1], step)
    ensures Execution(next) && |next| == |run| + 1 && run <= next && next[|run|] == Do(run[|run| - 1], step)
  {
    next := run + [Do(run[|run| - 1], step)];
    assert Next(run[|run| - 1], next[|run|]);
    forall i: nat | i + 1 < |next|
      ensures StepAt(next, i)
    {
      assert i + 1 < |run| ==> StepAt(run, i);
    }
  }

  /** While the listener is open, a call of Accept can take a connection that is offered, and
      deliver it, open. */
  lemma OfferedCanBeDelivered(run: seq<Listener>, h: nat, a: nat) returns (longer: seq<Listener>)
    requires Execution(run)
    requires var s := run[|run| - 1]; !s.done && At(s, h, Offering) && a !in s.acceptors
    ensures Execution(longer) && run <= longer
    ensures var s := longer[|longer| - 1];
            AcceptorDelivered(s, a, h) && h in s.transports && s.transports[h] == Transport(0, DeliveredBy(a))
  {
    ExecutionInv(run, |run| - 1);
    var called := OneStepMore(run, CallAccept(a));
    var taken := OneStepMore(called, HandOver(h, a));
    longer := OneStepMore(taken, Check(a));
  }

  /** While the listener is open and a slot is free, a request can become an offered connection. */
  lemma RequestCanBeOffered(run: seq<Listener>, h: nat) returns (longer: seq<Listener>)
    requires Execution(run)
    requires var s := run[|run| - 1]; !s.done && h !in s.handlers && s.slots < s.maxPending
    ensures Execution(longer) && run <= longer
    ensures var s := longer[|longer| - 1];
            At(s, h, Offering) && h in s.transports && s.transports[h] == Transport(0, WithHandler)
  {
    var come := OneStepMore(run, Request(h));
    var entered := OneStepMore(come, Enter(h));
    var admitted := OneStepMore(entered, TakeSlot(h));
    longer := OneStepMore(admitted, Upgrade(h, true));
  }

  // ---------------------------------------------------------------------------
  // Close
  // ---------------------------------------------------------------------------

  function HandlerRank(pc: Handler): nat {
    match pc
    case Arrived => 0
    case Entered => 6
    case Upgrading => 5
    case Offering => 4
    case Dropping => 3
    case Releasing => 2
    case Leaving => 1
    case Answered => 0
  }

  function AtLeast(handlers: map<nat, Handler>, k: nat): set<nat> {
    set h | h in handlers && HandlerRank(handlers[h]) >= k
  }

  /** The steps the handlers still have to take, summed up. */
  function HandlersRank(handlers: map<nat, Handler>, n: nat): nat {
    if n == 0 then 0 else HandlersRank(handlers, n - 1) + |AtLeast(handlers, n)|
  }

  lemma {:induction false} HandlersRankUpdated(handlers: map<nat, Handler>, h: nat, pc: Handler, n: nat)
    requires h in handlers && HandlerRank(pc) <= HandlerRank(handlers[h])
    ensures HandlersRank(handlers[h := pc], n) <=
            HandlersRank(handlers, n) - if HandlerRank(pc) < HandlerRank(handlers[h]) <= n then 1 else 0
  {
    if n > 0 {
      HandlersRankUpdated(handlers, h, pc, n - 1);
      SameButFor(AtLeast(handlers, n), AtLeast(handlers[h := pc], n), h);
    }
  }

  function ShutdownRank(shutdown: Shutdown): nat {
    match shutdown
    case NotBegun => 6
    case Begun(_) => 5
    case Announced => 4
    case ServerClosed => 3
    case AwaitingHandlers => 2
    case Over => 0
  }

  function Rank(s: Listener): nat {
    ShutdownRank(s.shutdown) + HandlersRank(s.handlers, 6)
  }

  lemma ShutdownGoesOn(s: Listener, cause: int) returns (step: Step)
    requires s.closers != {} && s.shutdown != AwaitingHandlers && s.shutdown != Over
    ensures Enabled(s, step) && Rank(Do(s, step)) < Rank(s) && Do(s, step).closers == s.closers
    ensures step == EnterClose(cause) || !step.EnterClose?
    ensures s.shutdown.NotBegun? ==> Do(s, step).shutdown == Begun(cause)
    ensures s.shutdown.Begun? ==> Do(s, step).acceptErr == Some(s.shutdown.cause)
    ensures !s.shutdown.Begun? ==> Do(s, step).acceptErr == s.acceptErr
  {
    step := match s.shutdown
            case NotBegun => EnterClose(cause)
            case Begun(_) => Announce
            case Announced => CloseServer
            case _ => CloseSocket;
  }

  lemma HandlersGoOn(run: seq<Listener>) returns (step: Step)
    requires Execution(run) && run[|run| - 1].shutdown == AwaitingHandlers
    ensures var s := run[|run| - 1];
            && Enabled(s, step) && Rank(Do(s, step)) < Rank(s)
            && Do(s, step).closers == s.closers && Do(s, step).acceptErr == s.acceptErr
            && (Do(s, step).shutdown == AwaitingHandlers || Do(s, step).shutdown == Over)
  {
    var s := run[|run| - 1];
    ExecutionInv(run, |run| - 1);
    step := CloseIsNeverStuck(run, |run| - 1);
    if step != WaitReturns {
      HandlerStepFalls(s, step);
    }
  }

  lemma HandlerStepFalls(s: Listener, step: Step)
    requires Enabled(s, step) && HandlerStep(step) && !step.HandOver? && !step.Enter?
    ensures Rank(Do(s, step)) < Rank(s)
    ensures Do(s, step).closers == s.closers && Do(s, step).acceptErr == s.acceptErr && Do(s, step).shutdown == s.shutdown
  {
    var pc := Do(s, step).handlers[step.h];
    assert Do(s, step).handlers == s.handlers[step.h := pc];
    HandlersRankUpdated(s.handlers, step.h, pc, 6);
  }

  lemma {:induction false} ShutdownEnds(run: seq<Listener>, cause: int) returns (longer: seq<Listener>)
    requires Execution(run) && run[|run| - 1].closers != {}
    ensures Execution(longer) && run <= longer && longer[|longer| - 1].shutdown == Over
    ensures longer[|longer| - 1].closers == run[|run| - 1].closers
    ensures run[|run| - 1].shutdown.NotBegun? ==> longer[|longer| - 1].acceptErr == Some(cause)
    ensures run[|run| - 1].shutdown.Begun? ==> longer[|longer| - 1].acceptErr == Some(run[|run| - 1].shutdown.cause)
    ensures !run[|run| - 1].shutdown.NotBegun? && !run[|run| - 1].shutdown.Begun? ==>
              longer[|longer| - 1].acceptErr == run[|run| - 1].acceptErr
    decreases Rank(run[|run| - 1])
  {
    longer := run;
    if run[|run| - 1].shutdown != Over {
      var step;
      if run[|run| - 1].shutdown == AwaitingHandlers {
        step := HandlersGoOn(run);
      } else {
        step := ShutdownGoesOn(run[|run| - 1], cause);
      }
      var next := OneStepMore(run, step);
      longer := ShutdownEnds(next, cause);
    }
  }

  /** At every moment, a call of Close can be made, and the run can go on to its return, without any
      Accept. If it is the first, its reason is the one that every Accept reports from then on. */
  lemma CloseCanReturn(run: seq<Listener>, n: nat, cause: int) returns (longer: seq<Listener>)
    requires Execution(run) && n !in run[|run| - 1].closers
    ensures Execution(longer) && run <= longer
    ensures var s := longer[|longer| - 1];
            && s.closers == run[|run| - 1].closers && s.shutdown == Over && s.done && s.wg == 0
            && (run[|run| - 1].shutdown.NotBegun? ==> s.acceptErr == Some(cause))
  {
    var called := OneStepMore(run, CallClose(n));
    var closed := ShutdownEnds(called, cause);
    longer := OneStepMore(closed, CloseReturns(n));
    ExecutionInv(longer, |longer| - 1);
  }
}
