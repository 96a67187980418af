/** What the server, `common/network/session_server.go`, can always get done: Close returns, and so
    does Serve. */
module SessionServerProgress {

  import opened Basics
  import opened SessionManagers
  import opened SessionServer

  lemma OneStepMore(run: seq<Server>, step: Step) returns (next: seq<Server>)
    requires Execution(run) && Enabled(run[|run| - 1], step)
    ensures Execution(next) && |next| == |run| + 1 && run <= next && next[|run|] == Do(run[|run| - 1], step)
  {
    next := run + [Do(run[|run| - 1], step)];
    assert Next(run[|run| - 1], next[|run|]);
    forall i | 0 <= i < |next| - 1
      ensures StepAt(next, i)
    {
      assert i + 1 < |run| ==> StepAt(run, i);
    }
  }

  // ---------------------------------------------------------------------------
  // Close
  // ---------------------------------------------------------------------------

  function ShutdownRank(s: Server): nat {
    match s.shutdown
    case NotBegun => |s.registry.conns| + 6
    case Entered => |s.registry.conns| + 5
    case StateStored => |s.registry.conns| + 4
    case ClosingConns(todo) => |todo| + 2
    case ClosingListener => 1
    case ShutDown => 0
  }

  /** The next step of closeOnce. */
  lemma ShutdownGoesOn(s: Server) returns (step: Step)
    requires Inv(s) && s.shutdown != ShutDown && s.closers != {}
    ensures Enabled(s, step) && ShutdownRank(Do(s, step)) < ShutdownRank(s)
    ensures Do(s, step).closers == s.closers && Do(s, step).pc == s.pc
  {
    if s.shutdown.ClosingConns? && s.shutdown.todo != {} {
      var id :| id in s.shutdown.todo;
      step := CloseNext(id);
      OneConnLess(s, id);
    } else {
      step := match s.shutdown
              case NotBegun => EnterClose
              case Entered => StoreClosed
              case StateStored => CloseManager
              case ClosingConns(_) => AllConnsClosed
              case _ => CloseListener;
      OneStageMore(s, step);
    }
  }

  lemma OneConnLess(s: Server, id: nat)
    requires Inv(s) && s.shutdown.ClosingConns? && id in s.shutdown.todo
    ensures Enabled(s, CloseNext(id)) && ShutdownRank(Do(s, CloseNext(id))) < ShutdownRank(s)
    ensures Do(s, CloseNext(id)).closers == s.closers && Do(s, CloseNext(id)).pc == s.pc
  {
    assert |s.shutdown.todo - {id}| == |s.shutdown.todo| - 1;
  }

  lemma OneStageMore(s: Server, step: Step)
    requires step in {EnterClose, StoreClosed, CloseManager, AllConnsClosed, CloseListener} && Enabled(s, step)
    ensures ShutdownRank(Do(s, step)) < ShutdownRank(s)
    ensures Do(s, step).closers == s.closers && Do(s, step).pc == s.pc
  {
    assert |s.registry.conns.Keys| == |s.registry.conns|;
  }

  lemma {:induction false} ShutdownEnds(run: seq<Server>) returns (longer: seq<Server>)
    requires Execution(run) && run[|run| - 1].closers != {}
    ensures Execution(longer) && run <= longer && longer[|longer| - 1].shutdown == ShutDown
    ensures longer[|longer| - 1].closers == run[|run| - 1].closers && longer[|longer| - 1].pc == run[|run| - 1].pc
    decreases ShutdownRank(run[|run| - 1])
  {
    longer := run;
    if run[|run| - 1].shutdown != ShutDown {
      ExecutionInv(run, |run| - 1);
      var step := ShutdownGoesOn(run[|run| - 1]);
      var next := OneStepMore(run, step);
      longer := ShutdownEnds(next);
    }
  }

  /** At every moment, a call of Close can be made, and the run can go on to its return: it waits for
      no connection and not for the accept loop. Every registered connection is closed then. */
  lemma CloseCanReturn(run: seq<Server>, n: nat) returns (longer: seq<Server>)
    requires Execution(run) && n !in run[|run| - 1].closers
    ensures Execution(longer) && run <= longer
    ensures var s := longer[|longer| - 1];
            && s.closers == run[|run| - 1].closers && s.pc == run[|run| - 1].pc
            && s.shutdown == ShutDown && s.state == Closed && s.registry.closed
            && forall id :: id in s.registry.conns ==> id in s.conns && s.conns[id].closed
  {
    var called := OneStepMore(run, CallClose(n));
    var closed := ShutdownEnds(called);
    longer := OneStepMore(closed, CloseReturns(n));
    var s := longer[|longer| - 1];
    ExecutionInv(longer, |longer| - 1);
    forall id | id in s.registry.conns
      ensures id in s.conns && s.conns[id].closed
    {
      assert StageInv(InHand(s.pc), id, s.conns[id], true, {});
    }
  }

  // ---------------------------------------------------------------------------
  // Serve
  // ---------------------------------------------------------------------------

  /** How far the goroutine of Serve is from its return once the server is shut down. */
  function PcRank(pc: Pc): nat {
    match pc
    case Idle => 0
    case GotTransport(_) => 6
    case InAccept => 6
    case MakingDeps(_) => 6
    case Constructing(_) => 7
    case Adding(_) => 6
    case AddFailed(_, _) => 5
    case Registering(_) => 5
    case DropAndContinue(_) => 5
    case DropAndLeave(_) => 5
    case GotError(_) => 5
    case AtTop => 4
    case AfterError => 4
    case Leaving(_) => 3
    case Closing(_) => 2
    case Waiting(_) => 1
    case Returned(_) => 0
  }

  function StageRank(stage: Stage): nat {
    match stage case Running => 3 case RunOver => 2 case Removed => 1 case _ => 0
  }

  function AtLeast(conns: map<nat, Conn>, k: nat): set<nat> {
    set id | id in conns && StageRank(conns[id].stage) >= k
  }

  function ConnsRank(conns: map<nat, Conn>): nat {
    |AtLeast(conns, 1)| + |AtLeast(conns, 2)| + |AtLeast(conns, 3)|
  }

  function Rank(s: Server): nat {
    4 * PcRank(s.pc) + ConnsRank(s.conns)
  }

  lemma AtLeastUpdated(conns: map<nat, Conn>, id: nat, c: Conn, k: nat)
    requires k > 0
    ensures |AtLeast(conns[id := c], k)| ==
            |AtLeast(conns, k)| + (if StageRank(c.stage) >= k then 1 else 0)
            - (if id in conns && StageRank(conns[id].stage) >= k then 1 else 0)
  {
    var others := AtLeast(conns, k) - {id};
    assert AtLeast(conns, k) == others + if id in conns && StageRank(conns[id].stage) >= k then {id} else {};
    assert AtLeast(conns[id := c], k) == others + if StageRank(c.stage) >= k then {id} else {};
  }

  lemma ConnsRankUpdated(conns: map<nat, Conn>, id: nat, c: Conn)
    ensures ConnsRank(conns[id := c]) ==
            ConnsRank(conns) + StageRank(c.stage) - if id in conns then StageRank(conns[id].stage) else 0
  {
    AtLeastUpdated(conns, id, c, 1);
    AtLeastUpdated(conns, id, c, 2);
    AtLeastUpdated(conns, id, c, 3);
  }

  /** The step of the accept loop, when Accept fails from now on. */
  function LoopStep(pc: Pc): Step {
    match pc
    case AtTop => CheckAtTop
    case InAccept => AcceptReturns(None, true)
    case GotError(_) => DropFailed
    case AfterError => CheckAfterError
    case GotTransport(_) => CheckAccepted
    case DropAndLeave(_) => DropLate
    case MakingDeps(_) => DepsReturn(false)
    case DropAndContinue(_) => DropWithoutDeps
    case Constructing(_) => NewConn
    case Adding(_) => AddReturns
    case AddFailed(_, _) => CloseRejected
    case Registering(_) => StartConn
    case Leaving(_) => LeaveLoop
    case _ => CloseReturnsToServe
  }

  lemma ConnsRankOfLoopStep(s: Server)
    requires Inv(s) && s.shutdown == ShutDown && s.pc != Idle && !s.pc.Waiting? && !s.pc.Returned?
    ensures Enabled(s, LoopStep(s.pc))
    ensures ConnsRank(Do(s, LoopStep(s.pc)).conns) <= ConnsRank(s.conns) + if s.pc.Registering? then 3 else 0
  {
    var t := Do(s, LoopStep(s.pc));
    match s.pc
    case Constructing(Some(tr)) =>
      assert s.nextId + 1 !in s.conns;
      ConnsRankUpdated(s.conns, s.nextId + 1, Conn(tr, Fresh, false));
    case Adding(id) => ConnsRankUpdated(s.conns, id, t.conns[id]);
    case AddFailed(id, _) =>
      ConnsRankUpdated(s.conns, id, t.conns[id]);
      assert t.conns == s.conns || t.conns == s.conns[id := t.conns[id]];
    case Registering(id) => ConnsRankUpdated(s.conns, id, t.conns[id]);
    case _ =>
  }

  lemma LoopGoesOn(s: Server)
    requires Inv(s) && s.shutdown == ShutDown && s.pc != Idle && !s.pc.Waiting? && !s.pc.Returned?
    ensures Enabled(s, LoopStep(s.pc)) && Rank(Do(s, LoopStep(s.pc))) < Rank(s)
    ensures Do(s, LoopStep(s.pc)).shutdown == ShutDown && Do(s, LoopStep(s.pc)).pc != Idle
  {
    ConnsRankOfLoopStep(s);
    PcRankFalls(s);
  }

  lemma PcRankFalls(s: Server)
    requires ShutdownInv(s) && s.shutdown == ShutDown && s.pc != Idle && !s.pc.Waiting? && !s.pc.Returned?
    requires Enabled(s, LoopStep(s.pc))
    ensures PcRank(Do(s, LoopStep(s.pc)).pc) < PcRank(s.pc)
    ensures Do(s, LoopStep(s.pc)).shutdown == ShutDown && Do(s, LoopStep(s.pc)).pc != Idle
  {
  }

  lemma WaitGoesOn(run: seq<Server>) returns (step: Step)
    requires Execution(run) && run[|run| - 1].pc.Waiting?
    ensures var s := run[|run| - 1];
            && Enabled(s, step) && Rank(Do(s, step)) < Rank(s)
            && Do(s, step).shutdown == ShutDown && Do(s, step).pc != Idle
  {
    var s := run[|run| - 1];
    ExecutionInv(run, |run| - 1);
    step := WaitIsNeverStuck(run, |run| - 1);
    if step != WaitReturns {
      OneConnGoesOn(s, step);
    }
  }

  lemma OneConnGoesOn(s: Server, step: Step)
    requires Enabled(s, step) && (step.RunReturns? || step.RemoveConn? || step.ConnDone?)
    ensures ConnsRank(Do(s, step).conns) < ConnsRank(s.conns)
    ensures Do(s, step).shutdown == s.shutdown && Do(s, step).pc == s.pc
  {
    ConnsRankUpdated(s.conns, step.id, Do(s, step).conns[step.id]);
  }

  lemma OneTaskMore(run: seq<Server>) returns (next: seq<Server>)
    requires Execution(run)
    requires var s := run[|run| - 1]; s.shutdown == ShutDown && s.pc != Idle && !s.pc.Returned?
    ensures Execution(next) && |next| == |run| + 1 && run <= next
    ensures next[|run|].shutdown == ShutDown && next[|run|].pc != Idle && Rank(next[|run|]) < Rank(run[|run| - 1])
  {
    var step;
    if run[|run| - 1].pc.Waiting? {
      step := WaitGoesOn(run);
    } else {
      ExecutionInv(run, |run| - 1);
      LoopGoesOn(run[|run| - 1]);
      step := LoopStep(run[|run| - 1].pc);
    }
    next := OneStepMore(run, step);
  }

  lemma {:induction false} ServeEnds(run: seq<Server>) returns (longer: seq<Server>)
    requires Execution(run) && run[|run| - 1].shutdown == ShutDown && run[|run| - 1].pc != Idle
    ensures Execution(longer) && run <= longer && longer[|longer| - 1].pc.Returned?
    decreases Rank(run[|run| - 1])
  {
    longer := run;
    if !run[|run| - 1].pc.Returned? {
      var next := OneTaskMore(run);
      longer := ServeEnds(next);
    }
  }

  /** From every moment, whatever Serve is doing, a Close brings it to its return: the run can go on
      so. On a server that nobody has closed, Serve can be called first. */
  lemma ServeCanReturn(run: seq<Server>) returns (longer: seq<Server>)
    requires Execution(run) && (run[|run| - 1].pc != Idle || run[|run| - 1].state == New)
    ensures Execution(longer) && run <= longer && longer[|longer| - 1].pc.Returned?
  {
    var serving := run;
    if run[|run| - 1].pc == Idle {
      serving := OneStepMore(run, CallServe);
    }
    var n := NotIn(serving[|serving| - 1].closers);
    var closed := CloseCanReturn(serving, n);
    longer := ServeEnds(closed);
  }

  lemma {:induction false} NotIn(ids: set<nat>) returns (n: nat)
    ensures n !in ids
    ensures forall id :: id in ids ==> id < n
  {
    if ids == {} {
      n := 0;
    } else {
      var id :| id in ids;
      n := NotIn(ids - {id});
      assert ids == (ids - {id}) + {id};
      if n <= id {
        n := id + 1;
      }
    }
  }

  // ---------------------------------------------------------------------------
  // One connection
  // ---------------------------------------------------------------------------

  /** A transport that Accept hands over on an open server with room in the registry can become a
      registered connection that runs. */
  lemma AcceptedCanBeServed(run: seq<Server>, t: nat) returns (longer: seq<Server>, id: nat)
    requires Execution(run)
    requires var s := run[|run| - 1];
             && s.pc == InAccept && s.state != Closed && t !in s.transports
             && (s.registry.maxConns <= 0 || |s.registry.conns| < s.registry.maxConns)
    ensures Execution(longer) && run <= longer
    ensures var s := longer[|longer| - 1];
            && s.pc == AtTop && id in s.conns && s.conns[id] == Conn(t, Running, false)
            && id in s.registry.conns && s.registry.conns[id] == t && t in s.transports && s.transports[t].closes == 0
  {
    var constructed := AcceptedCanBeConstructed(run, t);
    id := run[|run| - 1].nextId + 1;
    longer := ConstructedCanBeServed(constructed, id);
  }

  lemma AcceptedCanBeConstructed(run: seq<Server>, t: nat) returns (longer: seq<Server>)
    requires Execution(run)
    requires var s := run[|run| - 1]; s.pc == InAccept && s.state != Closed && t !in s.transports
    ensures Execution(longer) && run <= longer
    ensures var s, id := run[|run| - 1], run[|run| - 1].nextId + 1;
            longer[|longer| - 1] ==
              s.(transports := s.transports[t := Transport(0, ByConn(id))], conns := s.conns[id := Conn(t, Fresh, false)],
                 nextId := id, pc := Adding(id))
  {
    var s := run[|run| - 1];
    var transports := s.transports[t := Transport(0, ByLoop)];
    var accepted := OneStepMore(run, AcceptReturns(Some(t), false));
    assert accepted[|run|] == s.(transports := transports, pc := GotTransport(Some(t)));
    var checked := OneStepMore(accepted, CheckAccepted);
    assert checked[|run| + 1] == s.(transports := transports, pc := MakingDeps(Some(t)));
    var equipped := OneStepMore(checked, DepsReturn(true));
    assert equipped[|run| + 2] == s.(transports := transports, pc := Constructing(Some(t)));
    longer := OneStepMore(equipped, NewConn);
  }

  lemma ConstructedCanBeServed(run: seq<Server>, id: nat) returns (longer: seq<Server>)
    requires Execution(run)
    requires var s := run[|run| - 1];
             && s.pc == Adding(id) && s.state != Closed
             && (s.registry.maxConns <= 0 || |s.registry.conns| < s.registry.maxConns)
    ensures Execution(longer) && run <= longer
    ensures var s, t := run[|run| - 1], longer[|longer| - 1];
            && id in s.conns && t.pc == AtTop && t.conns == s.conns[id := s.conns[id].(stage := Running)]
            && t.registry.conns == s.registry.conns[id := s.conns[id].transport] && t.transports == s.transports
  {
    ExecutionInv(run, |run| - 1);
    AddSucceeds(run[|run| - 1], id);
    var added := OneStepMore(run, AddReturns);
    longer := OneStepMore(added, StartConn);
  }

  lemma AddSucceeds(s: Server, id: nat)
    requires s.registry.Valid() && RegistryInv(s.registry, s.conns, s.nextId, s.wg)
    requires StagesInv(InHand(s.pc), s.conns, s.registry.closed, Todo(s.shutdown)) && ShutdownInv(s)
    requires s.pc == Adding(id) && s.state != Closed
    requires s.registry.maxConns <= 0 || |s.registry.conns| < s.registry.maxConns
    ensures id in s.conns
    ensures var conns := s.conns[id := s.conns[id].(stage := Registered)];
            Do(s, AddReturns) ==
            s.(conns := conns, registry := s.registry.(conns := s.registry.conns[id := s.conns[id].transport]),
               pc := Registering(id))
    ensures s.conns[id := s.conns[id].(stage := Registered)][id := s.conns[id].(stage := Running)]
         == s.conns[id := s.conns[id].(stage := Running)]
  {
    assert s.registry.Outcome(id) == Added;
  }

  /** And a connection that runs can end: it is closed, and then neither registered nor counted. */
  lemma ConnCanEnd(run: seq<Server>, id: nat) returns (longer: seq<Server>)
    requires Execution(run)
    requires id in run[|run| - 1].conns && run[|run| - 1].conns[id].stage == Running
    ensures Execution(longer) && run <= longer
    ensures var s := longer[|longer| - 1];
            && id in s.conns && s.conns[id].stage == Gone && s.conns[id].closed && id !in s.registry.conns
            && s.wg == run[|run| - 1].wg - 1
  {
    ExecutionInv(run, |run| - 1);
    var closed := OneStepMore(run, ConnCloses(id));
    longer := ClosedCanBeGone(closed, id);
  }

  lemma ClosedCanBeGone(run: seq<Server>, id: nat) returns (longer: seq<Server>)
    requires Execution(run)
    requires var s := run[|run| - 1]; id in s.conns && s.conns[id].stage == Running && s.conns[id].closed
    ensures Execution(longer) && run <= longer
    ensures var s, t := run[|run| - 1], longer[|longer| - 1];
            && t.conns == s.conns[id := s.conns[id].(stage := Gone)]
            && t.registry == s.registry.Without(id) && t.wg == s.wg - 1
  {
    var over := OneStepMore(run, RunReturns(id));
    var removed := OneStepMore(over, RemoveConn(id));
    longer := OneStepMore(removed, ConnDone(id));
  }
}
