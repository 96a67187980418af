/** The server, `common/network/session_server.go` with the default manager: the goroutine of
    `Serve`, one goroutine per connection, any number of callers of `Close` and of the
    connections' own `Close`, interleaved at their atomic steps. */
module SessionServer {

  import opened Basics
  import opened SessionManagers

  /** Who is responsible for closing a transport that Accept handed over. */
  datatype Owner = ByLoop | ByConn(id: nat) | Released

  datatype Transport = Transport(closes: nat, owner: Owner)

  /** Where a connection is on its way through the server. */
  datatype Stage =
    | Fresh | Rejected
    | Registered                 // in the registry, its goroutine not started yet
    | Running                    // inside Run
    | RunOver                    // Run, with its OnClose, has returned
    | Removed                    // taken out of the registry
    | Gone                       // wg.Done

  datatype Conn = Conn(transport: nat, stage: Stage, closed: bool)

  /** The goroutine of Serve. A transport that may be nil is an option. */
  datatype Pc =
    | Idle
    | AtTop | InAccept
    | GotError(t: Option<nat>) | AfterError
    | GotTransport(t: Option<nat>) | DropAndLeave(t: Option<nat>)
    | MakingDeps(t: Option<nat>) | DropAndContinue(t: Option<nat>)
    | Constructing(t: Option<nat>)
    | Adding(id: nat) | AddFailed(id: nat, why: AddOutcome) | Registering(id: nat)
    | Leaving(ok: bool) | Closing(ok: bool) | Waiting(ok: bool) | Returned(ok: bool)

  datatype State = New | Started | Closed

  /** The body of closeOnce. */
  datatype Shutdown =
    | NotBegun | Entered | StateStored
    | ClosingConns(todo: set<nat>)          // the manager's snapshot, as far as it is not closed yet
    | ClosingListener | ShutDown

  datatype Server = Server(
    state: State, pc: Pc,
    transports: map<nat, Transport>,
    nextId: nat,                            // the process-wide generator of connection ids
    conns: map<nat, Conn>,
    registry: Registry<nat>,
    wg: int,
    shutdown: Shutdown,
    closers: set<nat>)                      // outside callers inside Close

  predicate Init(s: Server) {
    s == Server(New, Idle, map[], s.nextId, map[], Registry(map[], false, s.registry.maxConns), 0, NotBegun, {})
  }

  function DropTransport(s: Server, t: Option<nat>): Server {
    match t
    case None => s
    case Some(t) =>
      if t in s.transports then
        s.(transports := s.transports[t := Transport(s.transports[t].closes + 1, Released)])
      else s
  }

  /** `Conn.Close`: the transport is closed by the first call. */
  function CloseConn(s: Server, id: nat): Server
    requires id in s.conns && s.conns[id].transport in s.transports
  {
    var c := s.conns[id];
    var t := s.transports[c.transport];
    if c.closed then s
    else s.(conns := s.conns[id := c.(closed := true)],
            transports := s.transports[c.transport := t.(closes := t.closes + 1)])
  }

  function SetStage(s: Server, id: nat, stage: Stage): Server
    requires id in s.conns
  {
    s.(conns := s.conns[id := s.conns[id].(stage := stage)])
  }

  // ---------------------------------------------------------------------------
  // Atomic steps
  // ---------------------------------------------------------------------------

  datatype Step =
    // Serve and acceptLoop
    | CallServe
    | CheckAtTop
    | AcceptReturns(t: Option<nat>, failed: bool)
    | DropFailed | CheckAfterError
    | CheckAccepted | DropLate
    | DepsReturn(ok: bool) | DropWithoutDeps
    | NewConn
    | AddReturns | CloseRejected
    | StartConn
    | LeaveLoop | CloseReturnsToServe | WaitReturns
    // runConn, and the connections' own ends
    | ConnCloses(id: nat)        // a failure inside Run, or a caller that looked the connection up
    | RunReturns(id: nat) | RemoveConn(id: nat) | ConnDone(id: nat)
    // Close
    | CallClose(n: nat) | EnterClose | StoreClosed | CloseManager
    | CloseNext(id: nat) | AllConnsClosed | CloseListener | CloseReturns(n: nat)
    // elsewhere in the process
    | OtherConn

  predicate Enabled(s: Server, step: Step) {
    match step
    case CallServe => true
    case CheckAtTop => s.pc == AtTop
    case AcceptReturns(t, _) => s.pc == InAccept && (t.Some? ==> t.value !in s.transports)
    case DropFailed => s.pc.GotError?
    case CheckAfterError => s.pc == AfterError
    case CheckAccepted => s.pc.GotTransport?
    case DropLate => s.pc.DropAndLeave?
    case DepsReturn(_) => s.pc.MakingDeps?
    case DropWithoutDeps => s.pc.DropAndContinue?
    case NewConn => s.pc.Constructing?
    case AddReturns => s.pc.Adding? && s.pc.id in s.conns
    case CloseRejected => s.pc.AddFailed? && s.pc.id in s.conns && s.conns[s.pc.id].transport in s.transports
    case StartConn => s.pc.Registering? && s.pc.id in s.conns
    case LeaveLoop => s.pc.Leaving?
    case CloseReturnsToServe => s.pc.Closing? && s.shutdown == ShutDown
    case WaitReturns => s.pc.Waiting? && s.wg == 0
    case ConnCloses(id) =>
      id in s.conns && s.conns[id].stage in {Registered, Running} && s.conns[id].transport in s.transports
    case RunReturns(id) => id in s.conns && s.conns[id].stage == Running && s.conns[id].closed
    case RemoveConn(id) => id in s.conns && s.conns[id].stage == RunOver
    case ConnDone(id) => id in s.conns && s.conns[id].stage == Removed
    case CallClose(n) => n !in s.closers
    case EnterClose => s.shutdown == NotBegun && (s.closers != {} || s.pc.Closing?)
    case StoreClosed => s.shutdown == Entered
    case CloseManager => s.shutdown == StateStored
    case CloseNext(id) =>
      s.shutdown.ClosingConns? && id in s.shutdown.todo
      && id in s.conns && s.conns[id].transport in s.transports
    case AllConnsClosed => s.shutdown == ClosingConns({})
    case CloseListener => s.shutdown == ClosingListener
    case CloseReturns(n) => n in s.closers && s.shutdown == ShutDown
    case OtherConn => true
  }

  function Do(s: Server, step: Step): Server
    requires Enabled(s, step)
  {
    match step
    case CallServe => if s.state == New && s.pc == Idle then s.(state := Started, pc := AtTop) else s
    case CheckAtTop => s.(pc := if s.state == Closed then Leaving(true) else InAccept)
    case AcceptReturns(t, failed) =>
      s.(transports := match t case Some(t) => s.transports[t := Transport(0, ByLoop)] case None => s.transports,
         pc := if failed then GotError(t) else GotTransport(t))
    case DropFailed => DropTransport(s, s.pc.t).(pc := AfterError)
    case CheckAfterError => s.(pc := Leaving(s.state == Closed))
    case CheckAccepted => s.(pc := if s.state == Closed then DropAndLeave(s.pc.t) else MakingDeps(s.pc.t))
    case DropLate => DropTransport(s, s.pc.t).(pc := Leaving(true))
    case DepsReturn(ok) => s.(pc := if ok then Constructing(s.pc.t) else DropAndContinue(s.pc.t))
    case DropWithoutDeps => DropTransport(s, s.pc.t).(pc := AtTop)
    case NewConn => Construct(s)
    case AddReturns =>
      var id := s.pc.id;
      var outcome := s.registry.Outcome(id);
      if outcome == Added then
        SetStage(s, id, Registered).(registry := s.registry.With(id, s.conns[id].transport), pc := Registering(id))
      else SetStage(s, id, Rejected).(pc := AddFailed(id, outcome))
    case CloseRejected =>
      CloseConn(s, s.pc.id).(pc := match s.pc.why
                                   case ManagerClosed => Leaving(true)
                                   case LimitReached => AtTop
                                   case _ => Leaving(false))
    case StartConn => SetStage(s, s.pc.id, Running).(wg := s.wg + 1, pc := AtTop)
    case LeaveLoop => s.(pc := Closing(s.pc.ok))
    case CloseReturnsToServe => s.(pc := Waiting(s.pc.ok))
    case WaitReturns => s.(pc := Returned(s.pc.ok))
    case ConnCloses(id) => CloseConn(s, id)
    case RunReturns(id) => SetStage(s, id, RunOver)
    case RemoveConn(id) => SetStage(s, id, Removed).(registry := s.registry.Without(id))
    case ConnDone(id) => SetStage(s, id, Gone).(wg := s.wg - 1)
    case CallClose(n) => s.(closers := s.closers + {n})
    case EnterClose => s.(shutdown := Entered)
    case StoreClosed => s.(state := Closed, shutdown := StateStored)
    case CloseManager => s.(registry := s.registry.(closed := true), shutdown := ClosingConns(s.registry.conns.Keys))
    case CloseNext(id) => CloseConn(s, id).(shutdown := ClosingConns(s.shutdown.todo - {id}))
    case AllConnsClosed => s.(shutdown := ClosingListener)
    case CloseListener => s.(shutdown := ShutDown)
    case CloseReturns(n) => s.(closers := s.closers - {n})
    case OtherConn => s.(nextId := s.nextId + 1)
  }

  /** newConn refuses a nil transport, and takes the next id of the generator. */
  function Construct(s: Server): Server
    requires s.pc.Constructing?
  {
    match s.pc.t
    case None => s.(pc := Leaving(false))
    case Some(t) =>
      var id := s.nextId + 1;
      s.(nextId := id,
         conns := s.conns[id := Conn(t, Fresh, false)],
         transports := s.transports[t := Transport(0, ByConn(id))],
         pc := Adding(id))
  }

  ghost predicate Next(s: Server, s': Server) {
    exists step :: Enabled(s, step) && s' == Do(s, step)
  }

  ghost predicate StepAt(run: seq<Server>, i: nat)
    requires i + 1 < |run|
  {
    Next(run[i], run[i + 1])
  }

  ghost predicate Execution(run: seq<Server>) {
    && run != [] && Init(run[0])
    && forall i :: 0 <= i < |run| - 1 ==> StepAt(run, i)
  }

  // ---------------------------------------------------------------------------
  // The invariant
  // ---------------------------------------------------------------------------

  /** The transport the accept loop has in its hands. */
  function Held(pc: Pc): Option<nat> {
    match pc
    case GotError(t) => t
    case GotTransport(t) => t
    case DropAndLeave(t) => t
    case MakingDeps(t) => t
    case DropAndContinue(t) => t
    case Constructing(t) => t
    case _ => None
  }

  /** The connection the accept loop has in its hands, and the stage it is in. */
  function InHand(pc: Pc): Option<(nat, Stage)> {
    match pc
    case Adding(id) => Some((id, Fresh))
    case AddFailed(id, _) => Some((id, Rejected))
    case Registering(id) => Some((id, Registered))
    case _ => None
  }

  predicate InRegistry(stage: Stage) {
    stage in {Registered, Running, RunOver}
  }

  predicate Active(stage: Stage) {
    stage in {Running, RunOver, Removed}
  }

  function ActiveIds(conns: map<nat, Conn>): set<nat> {
    set id | id in conns && Active(conns[id].stage)
  }

  /** Every transport is with the loop, with its one connection, or closed; and closed once. */
  ghost predicate TransportsInv(held: Option<nat>, transports: map<nat, Transport>, conns: map<nat, Conn>) {
    && (forall t :: t in transports ==>
          match transports[t].owner
          case ByLoop => held == Some(t) && transports[t].closes == 0
          case ByConn(id) =>
            && id in conns && conns[id].transport == t
            && transports[t].closes == if conns[id].closed then 1 else 0
          case Released => transports[t].closes == 1)
    && (forall id :: id in conns ==>
          conns[id].transport in transports && transports[conns[id].transport].owner == ByConn(id))
    && (held.Some? ==> held.value in transports && transports[held.value].owner == ByLoop)
  }

  /** The registry holds the connections between Add and Remove. */
  ghost predicate RegistryInv(registry: Registry<nat>, conns: map<nat, Conn>, nextId: nat, wg: int) {
    && registry.Valid()
    && (forall id :: id in registry.conns ==> id in conns)
    && (forall id :: id in conns ==>
          && id <= nextId
          && (id in registry.conns <==> InRegistry(conns[id].stage)))
    && wg == |ActiveIds(conns)|
  }

  /** No connection is missed: one that is open is in the loop's hands, or registered while the
      registry takes connections, or still in the snapshot. */
  ghost predicate StagesInv(hand: Option<(nat, Stage)>, conns: map<nat, Conn>, full: bool, todo: set<nat>) {
    && (hand.Some? ==> hand.value.0 in conns && conns[hand.value.0].stage == hand.value.1)
    && (forall id :: id in conns ==> StageInv(hand, id, conns[id], full, todo))
  }

  predicate StageInv(hand: Option<(nat, Stage)>, id: nat, c: Conn, full: bool, todo: set<nat>) {
    && (c.stage in {Fresh, Registered} ==> hand == Some((id, c.stage)))
    && (!c.closed ==>
          || c.stage == Fresh
          || (c.stage == Rejected && hand == Some((id, Rejected)))
          || (c.stage in {Registered, Running} && (full ==> id in todo)))
  }

  /** What is left of the manager's snapshot. */
  function Todo(shutdown: Shutdown): set<nat> {
    if shutdown.ClosingConns? then shutdown.todo else {}
  }

  ghost predicate ShutdownInv(s: Server) {
    && (s.state == Closed <==> s.shutdown != NotBegun && s.shutdown != Entered)
    && (s.registry.closed <==> s.shutdown.ClosingConns? || s.shutdown == ClosingListener || s.shutdown == ShutDown)
    && (s.pc.AddFailed? ==> s.pc.why in {ManagerClosed, LimitReached})
    && (s.pc.Waiting? || s.pc.Returned? ==> s.shutdown == ShutDown)
    && (s.pc.Returned? ==> s.wg == 0)
    && (s.pc.DropAndLeave? ==> s.state == Closed)
    && (s.pc.AddFailed? && s.pc.why == ManagerClosed ==> s.registry.closed)
    && ((s.pc.Leaving? || s.pc.Closing? || s.pc.Waiting? || s.pc.Returned?) && s.pc.ok ==> s.state == Closed)
    && (s.shutdown.ClosingConns? ==> forall id :: id in s.shutdown.todo ==> id in s.conns)
  }

  ghost predicate Inv(s: Server) {
    && TransportsInv(Held(s.pc), s.transports, s.conns)
    && RegistryInv(s.registry, s.conns, s.nextId, s.wg)
    && StagesInv(InHand(s.pc), s.conns, s.registry.closed, Todo(s.shutdown))
    && ShutdownInv(s)
  }

  lemma InitInv(s: Server)
    requires Init(s)
    ensures Inv(s)
  {
    assert ActiveIds(s.conns) == {};
  }

  // ---------------------------------------------------------------------------
  // Every step keeps it
  // ---------------------------------------------------------------------------

  predicate TransportStep(step: Step) {
    step.AcceptReturns? || step.DropFailed? || step.DropLate? || step.DropWithoutDeps? || step.NewConn?
  }

  predicate RegisterStep(step: Step) {
    step.AddReturns? || step.CloseRejected? || step.StartConn?
  }

  predicate ConnStep(step: Step) {
    step.ConnCloses? || step.RunReturns? || step.RemoveConn? || step.ConnDone?
  }

  predicate ManagerStep(step: Step) {
    step.CloseManager? || step.CloseNext?
  }

  predicate ControlStep(step: Step) {
    !TransportStep(step) && !RegisterStep(step) && !ConnStep(step) && !ManagerStep(step)
  }

  lemma ControlStepFrame(s: Server, step: Step)
    requires Enabled(s, step) && ControlStep(step)
    ensures var t := Do(s, step);
            && t.transports == s.transports && t.conns == s.conns && t.registry == s.registry && t.wg == s.wg
            && Held(t.pc) == Held(s.pc) && InHand(t.pc) == InHand(s.pc) && t.nextId >= s.nextId
            && Todo(t.shutdown) == Todo(s.shutdown)
  {
  }

  lemma ControlKeepsShutdown(s: Server, step: Step)
    requires ShutdownInv(s) && Enabled(s, step) && ControlStep(step)
    ensures ShutdownInv(Do(s, step))
  {
  }

  lemma ControlStepInv(s: Server, step: Step)
    requires Inv(s) && Enabled(s, step) && ControlStep(step)
    ensures Inv(Do(s, step))
  {
    ControlStepFrame(s, step);
    ControlKeepsShutdown(s, step);
  }

  lemma DropKeepsTransports(s: Server, t: Option<nat>)
    requires TransportsInv(t, s.transports, s.conns)
    ensures TransportsInv(None, DropTransport(s, t).transports, s.conns)
  {
  }

  lemma AcceptReturnsInv(s: Server, step: Step)
    requires Inv(s) && Enabled(s, step) && step.AcceptReturns?
    ensures Inv(Do(s, step))
  {
  }

  lemma DropInv(s: Server, step: Step)
    requires Inv(s) && Enabled(s, step) && (step.DropFailed? || step.DropLate? || step.DropWithoutDeps?)
    ensures Inv(Do(s, step))
  {
    DropKeepsTransports(s, s.pc.t);
  }

  lemma NewConnInv(s: Server)
    requires Inv(s) && Enabled(s, NewConn)
    ensures Inv(Do(s, NewConn))
  {
    match s.pc.t
    case None =>
    case Some(t) =>
      var id, after := s.nextId + 1, Do(s, NewConn);
      assert after.conns == s.conns[id := Conn(t, Fresh, false)] && after.nextId == id && after.wg == s.wg;
      assert after.transports == s.transports[t := Transport(0, ByConn(id))];
      assert after.registry == s.registry && after.shutdown == s.shutdown && ShutdownInv(after);
      assert Held(after.pc) == None && InHand(after.pc) == Some((id, Fresh)) && InHand(s.pc) == None;
      NewConnOwned(s, t, id);
      StagedKeepsStages(s, Some((id, Fresh)), id, Conn(t, Fresh, false), Todo(s.shutdown));
  }

  lemma NewConnOwned(s: Server, t: nat, id: nat)
    requires TransportsInv(Some(t), s.transports, s.conns)
    requires RegistryInv(s.registry, s.conns, s.nextId, s.wg) && id == s.nextId + 1
    ensures TransportsInv(None, s.transports[t := Transport(0, ByConn(id))], s.conns[id := Conn(t, Fresh, false)])
    ensures RegistryInv(s.registry, s.conns[id := Conn(t, Fresh, false)], id, s.wg)
    ensures id !in s.conns
  {
    assert ActiveIds(s.conns[id := Conn(t, Fresh, false)]) == ActiveIds(s.conns);
  }

  lemma ActiveIdsUpdated(conns: map<nat, Conn>, id: nat, c: Conn)
    requires id in conns
    ensures |ActiveIds(conns[id := c])| ==
            |ActiveIds(conns)| + (if Active(c.stage) then 1 else 0) - (if Active(conns[id].stage) then 1 else 0)
  {
    var others := ActiveIds(conns) - {id};
    assert ActiveIds(conns) == others + if Active(conns[id].stage) then {id} else {};
    assert ActiveIds(conns[id := c]) == others + if Active(c.stage) then {id} else {};
  }

  /** A connection's close changes nothing but its own state and its transport's. */
  lemma CloseConnInv(s: Server, id: nat)
    requires TransportsInv(Held(s.pc), s.transports, s.conns)
    requires RegistryInv(s.registry, s.conns, s.nextId, s.wg) && id in s.conns
    ensures TransportsInv(Held(s.pc), CloseConn(s, id).transports, CloseConn(s, id).conns)
    ensures RegistryInv(s.registry, CloseConn(s, id).conns, s.nextId, s.wg)
  {
    ActiveIdsUpdated(s.conns, id, s.conns[id].(closed := true));
  }

  lemma StagedKeepsTransports(held: Option<nat>, transports: map<nat, Transport>, conns: map<nat, Conn>, id: nat, c: Conn)
    requires TransportsInv(held, transports, conns) && id in conns
    requires c.transport == conns[id].transport && c.closed == conns[id].closed
    ensures TransportsInv(held, transports, conns[id := c])
  {
  }

  lemma StagedKeepsRegistry(s: Server, id: nat, c: Conn, registry: Registry<nat>, wg: int)
    requires RegistryInv(s.registry, s.conns, s.nextId, s.wg) && id in s.conns && registry.Valid()
    requires forall k :: k in registry.conns <==> if k == id then InRegistry(c.stage) else k in s.registry.conns
    requires wg == s.wg + (if Active(c.stage) then 1 else 0) - (if Active(s.conns[id].stage) then 1 else 0)
    ensures RegistryInv(registry, s.conns[id := c], s.nextId, wg)
  {
    ActiveIdsUpdated(s.conns, id, c);
  }

  /** One connection's stage or close changes, with the loop's hand on it or elsewhere. */
  lemma StagedKeepsStages(s: Server, hand: Option<(nat, Stage)>, id: nat, c: Conn, todo: set<nat>)
    requires StagesInv(InHand(s.pc), s.conns, s.registry.closed, Todo(s.shutdown))
    requires StageInv(hand, id, c, s.registry.closed, todo) && Todo(s.shutdown) - {id} <= todo
    requires hand.Some? && hand.value.0 == id ==> hand.value.1 == c.stage
    requires hand == InHand(s.pc)
             || ((hand.Some? ==> hand.value.0 == id) && (InHand(s.pc).Some? ==> InHand(s.pc).value.0 == id))
    requires id in s.conns || (InHand(s.pc) == None && id !in s.conns)
    ensures StagesInv(hand, s.conns[id := c], s.registry.closed, todo)
  {
  }

  /** An id is never refused as already registered. */
  lemma AddKeepsShutdown(s: Server)
    requires Inv(s) && Enabled(s, AddReturns)
    ensures ShutdownInv(Do(s, AddReturns)) && s.registry.Outcome(s.pc.id) in {Added, ManagerClosed, LimitReached}
  {
  }

  lemma AddSucceedsInv(s: Server)
    requires Inv(s) && Enabled(s, AddReturns) && s.registry.Outcome(s.pc.id) == Added
    ensures Inv(Do(s, AddReturns))
  {
    var id, c, t := s.pc.id, s.conns[s.pc.id].(stage := Registered), Do(s, AddReturns);
    assert t.conns == s.conns[id := c] && t.transports == s.transports && t.wg == s.wg && t.nextId == s.nextId;
    assert Held(t.pc) == Held(s.pc) == None && InHand(t.pc) == Some((id, Registered));
    assert t.registry == s.registry.With(id, c.transport) && t.registry.closed == s.registry.closed;
    assert t.shutdown == s.shutdown;
    AddKeepsShutdown(s);
    AddKeepsRegistrations(s.registry, id, c.transport);
    StagedKeepsTransports(Held(s.pc), s.transports, s.conns, id, c);
    StagedKeepsRegistry(s, id, c, s.registry.With(id, c.transport), s.wg);
    StagedKeepsStages(s, Some((id, Registered)), id, c, Todo(s.shutdown));
  }

  lemma AddFailsInv(s: Server)
    requires Inv(s) && Enabled(s, AddReturns) && s.registry.Outcome(s.pc.id) != Added
    ensures Inv(Do(s, AddReturns))
  {
    var id, c, t := s.pc.id, s.conns[s.pc.id].(stage := Rejected), Do(s, AddReturns);
    assert t.conns == s.conns[id := c] && t.transports == s.transports && t.wg == s.wg && t.nextId == s.nextId;
    assert Held(t.pc) == Held(s.pc) == None && InHand(t.pc) == Some((id, Rejected));
    assert t.registry == s.registry && t.shutdown == s.shutdown;
    AddKeepsShutdown(s);
    StagedKeepsTransports(Held(s.pc), s.transports, s.conns, id, c);
    StagedKeepsRegistry(s, id, c, s.registry, s.wg);
    StagedKeepsStages(s, Some((id, Rejected)), id, c, Todo(s.shutdown));
  }

  lemma CloseRejectedInv(s: Server)
    requires Inv(s) && Enabled(s, CloseRejected)
    ensures Inv(Do(s, CloseRejected))
  {
    var id, t := s.pc.id, Do(s, CloseRejected);
    var closed := CloseConn(s, id);
    assert t.conns == closed.conns && t.transports == closed.transports;
    assert t.registry == s.registry && t.wg == s.wg && t.nextId == s.nextId && t.shutdown == s.shutdown;
    assert Held(t.pc) == Held(s.pc) == None && InHand(t.pc) == None;
    assert ShutdownInv(t);
    CloseConnInv(s, id);
    assert closed.conns == s.conns[id := s.conns[id].(closed := true)] by {
      assert s.conns[id].closed ==> s.conns[id] == s.conns[id].(closed := true);
    }
    StagedKeepsStages(s, None, id, s.conns[id].(closed := true), Todo(s.shutdown));
  }

  lemma StartConnInv(s: Server)
    requires Inv(s) && Enabled(s, StartConn)
    ensures Inv(Do(s, StartConn))
  {
    var c, t := s.conns[s.pc.id].(stage := Running), Do(s, StartConn);
    assert t.conns == s.conns[s.pc.id := c] && t.transports == s.transports && t.wg == s.wg + 1;
    assert t.registry == s.registry && t.nextId == s.nextId && t.shutdown == s.shutdown && ShutdownInv(t);
    assert Held(t.pc) == Held(s.pc) == None && InHand(t.pc) == None;
    StagedKeepsTransports(Held(s.pc), s.transports, s.conns, s.pc.id, c);
    StagedKeepsRegistry(s, s.pc.id, c, s.registry, s.wg + 1);
    StagedKeepsStages(s, None, s.pc.id, c, Todo(s.shutdown));
  }

  lemma ConnClosesInv(s: Server, id: nat)
    requires Inv(s) && Enabled(s, ConnCloses(id))
    ensures Inv(Do(s, ConnCloses(id)))
  {
    CloseConnInv(s, id);
  }

  lemma RemoveConnInv(s: Server, id: nat)
    requires Inv(s) && Enabled(s, RemoveConn(id))
    ensures Inv(Do(s, RemoveConn(id)))
  {
    var c := s.conns[id].(stage := Removed);
    RemoveKeepsOthers(s.registry, id);
    StagedKeepsTransports(Held(s.pc), s.transports, s.conns, id, c);
    StagedKeepsRegistry(s, id, c, s.registry.Without(id), s.wg);
    StagedKeepsStages(s, InHand(s.pc), id, c, Todo(s.shutdown));
  }

  lemma ConnEndsInv(s: Server, step: Step)
    requires Inv(s) && Enabled(s, step) && (step.RunReturns? || step.ConnDone?)
    ensures Inv(Do(s, step))
  {
    var t := Do(s, step);
    var c := t.conns[step.id];
    StagedKeepsTransports(Held(s.pc), s.transports, s.conns, step.id, c);
    StagedKeepsRegistry(s, step.id, c, s.registry, t.wg);
    StagedKeepsStages(s, InHand(s.pc), step.id, c, Todo(s.shutdown));
  }

  lemma CloseManagerInv(s: Server)
    requires Inv(s) && Enabled(s, CloseManager)
    ensures Inv(Do(s, CloseManager))
  {
    var t := Do(s, CloseManager);
    assert t.conns == s.conns && t.transports == s.transports && t.wg == s.wg && t.nextId == s.nextId && t.pc == s.pc;
    assert ShutdownInv(t);
  }

  lemma CloseNextInv(s: Server, id: nat)
    requires Inv(s) && Enabled(s, CloseNext(id))
    ensures Inv(Do(s, CloseNext(id)))
  {
    var c, t, closed := s.conns[id].(closed := true), Do(s, CloseNext(id)), CloseConn(s, id);
    assert t.conns == closed.conns && t.transports == closed.transports;
    assert t.registry == s.registry && t.wg == s.wg && t.nextId == s.nextId && t.pc == s.pc;
    assert ShutdownInv(t);
    CloseConnInv(s, id);
    assert closed.conns == s.conns[id := c] by {
      assert s.conns[id].closed ==> s.conns[id] == c;
    }
    StagedKeepsStages(s, InHand(s.pc), id, c, Todo(t.shutdown));
  }

  lemma LoopStepInv(s: Server, step: Step)
    requires Inv(s) && Enabled(s, step) && (TransportStep(step) || RegisterStep(step))
    ensures Inv(Do(s, step))
  {
    match step
    case AcceptReturns(_, _) => AcceptReturnsInv(s, step);
    case NewConn => NewConnInv(s);
    case AddReturns => if s.registry.Outcome(s.pc.id) == Added { AddSucceedsInv(s); } else { AddFailsInv(s); }
    case CloseRejected => CloseRejectedInv(s);
    case StartConn => StartConnInv(s);
    case _ => DropInv(s, step);
  }

  lemma StepInv(s: Server, step: Step)
    requires Inv(s) && Enabled(s, step)
    ensures Inv(Do(s, step))
  {
    if ControlStep(step) {
      ControlStepInv(s, step);
    } else if TransportStep(step) || RegisterStep(step) {
      LoopStepInv(s, step);
    } else {
      match step
      case ConnCloses(id) => ConnClosesInv(s, id);
      case RemoveConn(id) => RemoveConnInv(s, id);
      case CloseManager => CloseManagerInv(s);
      case CloseNext(id) => CloseNextInv(s, id);
      case _ => ConnEndsInv(s, step);
    }
  }

  lemma {:induction false} ExecutionInv(run: seq<Server>, i: nat)
    requires Execution(run) && i < |run|
    ensures Inv(run[i])
  {
    if i == 0 {
      InitInv(run[0]);
    } else {
      ExecutionInv(run, i - 1);
      assert StepAt(run, i - 1);
      var step :| Enabled(run[i - 1], step) && run[i] == Do(run[i - 1], step);
      StepInv(run[i - 1], step);
    }
  }

  // ---------------------------------------------------------------------------
  // Safety of every interleaving
  // ---------------------------------------------------------------------------

  /** When Serve returns, every transport that Accept handed over has been closed, once; every
      connection that was started has run to its end, OnClose included, and is deregistered; and
      no other connection was ever left in the registry. */
  lemma ServeReturnsClean(run: seq<Server>, i: nat)
    requires Execution(run) && i < |run| && run[i].pc.Returned?
    ensures forall t :: t in run[i].transports ==> run[i].transports[t].closes == 1
    ensures forall id :: id in run[i].conns ==> run[i].conns[id].stage in {Rejected, Gone} && run[i].conns[id].closed
    ensures run[i].registry.conns == map[] && run[i].registry.closed && run[i].state == Closed
  {
    var s := run[i];
    ExecutionInv(run, i);
    assert ActiveIds(s.conns) == {};
    forall id | id in s.conns
      ensures s.conns[id].stage in {Rejected, Gone} && s.conns[id].closed && id !in s.registry.conns
    {
      var c := s.conns[id];
      assert !Active(c.stage) by {
        assert Active(c.stage) ==> id in ActiveIds(s.conns);
      }
      assert StageInv(None, id, c, true, {});
      assert c.stage != Fresh && c.stage != Registered;
      assert c.closed && !InRegistry(c.stage);
    }
  }

  /** No transport is ever closed twice, and the registry never exceeds a positive limit. */
  lemma ServeNeverClosesTwice(run: seq<Server>, i: nat, t: nat)
    requires Execution(run) && i < |run|
    ensures t in run[i].transports ==> run[i].transports[t].closes <= 1
    ensures run[i].registry.maxConns > 0 ==> |run[i].registry.conns| <= run[i].registry.maxConns
    ensures run[i].pc.AddFailed? ==> run[i].pc.why != IdExists
  {
    ExecutionInv(run, i);
  }

  /** Close misses no connection: when the body of closeOnce is through, every connection that
      was ever registered is closed, and none can be registered any more. */
  lemma CloseMissesNoConnection(run: seq<Server>, i: nat, id: nat)
    requires Execution(run) && i < |run| && run[i].shutdown in {ClosingListener, ShutDown}
    requires id in run[i].conns && run[i].conns[id].stage !in {Fresh, Rejected}
    ensures run[i].conns[id].closed
    ensures forall k, c :: run[i].registry.With(k, c) == run[i].registry
  {
    ExecutionInv(run, i);
    assert StageInv(InHand(run[i].pc), id, run[i].conns[id], true, {});
  }

  /** So wg.Wait waits for connections only whose transport is closed, and one of their
      goroutines can always go on. */
  lemma WaitIsNeverStuck(run: seq<Server>, i: nat) returns (step: Step)
    requires Execution(run) && i < |run| && run[i].pc.Waiting?
    ensures Enabled(run[i], step)
    ensures step == WaitReturns || step.RunReturns? || step.RemoveConn? || step.ConnDone?
  {
    var s := run[i];
    ExecutionInv(run, i);
    if s.wg == 0 {
      step := WaitReturns;
    } else {
      var id :| id in ActiveIds(s.conns);
      assert StageInv(None, id, s.conns[id], true, {});
      step := match s.conns[id].stage case Running => RunReturns(id) case RunOver => RemoveConn(id) case _ => ConnDone(id);
    }
  }

  // ---------------------------------------------------------------------------
  // The server goes on serving
  // ---------------------------------------------------------------------------

  predicate Past(pc: Pc) {
    pc.Leaving? || pc.Closing? || pc.Waiting? || pc.Returned?
  }

  /** The accept loop ends behind `s`, with a result that is nil or not: on a closed server; or on
      an open one because Accept failed; or because newConn was given no transport. */
  ghost predicate EndsAt(s: Server, ok: bool) {
    if ok then
      s.state == Closed
      && (s.pc in {AtTop, AfterError} || s.pc.DropAndLeave? || (s.pc.AddFailed? && s.registry.closed))
    else
      s.pc == Constructing(None) || (s.pc == AfterError && s.state != Closed)
  }

  /** No other step ends the loop. In particular a refused connection does not, as long as the
      registry is open, however full it is: the next one is accepted. */
  lemma LoopEndsOnlyThen(run: seq<Server>, i: nat)
    requires Execution(run) && i + 1 < |run| && !Past(run[i].pc)
    ensures Past(run[i + 1].pc) ==> run[i + 1].pc.Leaving? && EndsAt(run[i], run[i + 1].pc.ok)
    ensures run[i].pc.AddFailed? && !run[i].registry.closed && run[i + 1].pc != run[i].pc ==> run[i + 1].pc == AtTop
  {
    ExecutionInv(run, i);
    assert StepAt(run, i);
    var step :| Enabled(run[i], step) && run[i + 1] == Do(run[i], step);
    StepEndsOnlyThen(run[i], step);
  }

  lemma StepEndsOnlyThen(s: Server, step: Step)
    requires ShutdownInv(s) && Enabled(s, step) && !Past(s.pc)
    ensures var pc := Do(s, step).pc;
            && (Past(pc) ==> pc.Leaving? && EndsAt(s, pc.ok))
            && (s.pc.AddFailed? && !s.registry.closed && pc != s.pc ==> pc == AtTop)
  {
  }

  /** What Serve returns is nil exactly if the loop ended on a closed server, and not for want of a
      transport. */
  lemma {:induction false} ServeSaysWhy(run: seq<Server>, i: nat) returns (j: nat)
    requires Execution(run) && i < |run| && Past(run[i].pc)
    ensures j < i && !Past(run[j].pc) && run[j + 1].pc == Leaving(run[i].pc.ok) && EndsAt(run[j], run[i].pc.ok)
    ensures run[i].pc.ok <==> run[j].state == Closed && run[j].pc != Constructing(None)
  {
    assert StepAt(run, i - 1);
    if Past(run[i - 1].pc) {
      assert run[i].pc.ok == run[i - 1].pc.ok;
      j := ServeSaysWhy(run, i - 1);
    } else {
      j := i - 1;
      LoopEndsOnlyThen(run, j);
    }
  }

  /** A step away from serving an accepted transport has one of these causes: Accept failed; the
      server is closed, in which case nothing is built any more; the dependencies failed; the
      registry is closed or full. */
  lemma RefusedOnlyThen(s: Server, step: Step)
    requires Inv(s) && Enabled(s, step) && Do(s, step).pc != s.pc
    ensures match Do(s, step).pc
            case GotError(t) => step == AcceptReturns(t, true)
            case AfterError => s.pc.GotError?
            case GotTransport(t) => step == AcceptReturns(t, false)
            case DropAndLeave(t) => s.pc == GotTransport(t) && s.state == Closed
            case MakingDeps(t) => s.pc == GotTransport(t) && s.state != Closed
            case DropAndContinue(t) => s.pc == MakingDeps(t) && step == DepsReturn(false)
            case Constructing(t) => s.pc == MakingDeps(t) && step == DepsReturn(true)
            case Adding(id) => s.pc.Constructing? && s.pc.t == Some(Do(s, step).conns[id].transport)
            case AddFailed(id, why) =>
              && s.pc == Adding(id)
              && (if why == ManagerClosed then s.registry.closed
                  else why == LimitReached && !s.registry.closed && 0 < s.registry.maxConns <= |s.registry.conns|)
            case Registering(id) =>
              && s.pc == Adding(id) && !s.registry.closed
              && (s.registry.maxConns <= 0 || |s.registry.conns| < s.registry.maxConns)
            case InAccept => s.pc == AtTop && s.state != Closed
            case AtTop =>
              s.pc == Idle || s.pc.DropAndContinue? || s.pc.Registering? || (s.pc.AddFailed? && s.pc.why == LimitReached)
            case _ => true
  {
    if s.pc.Adding? {
      AddKeepsRegistrations(s.registry, s.pc.id, 0);
    }
  }

  /** And what has been registered runs: the step from registration leads nowhere else. */
  lemma RegisteredIsStarted(s: Server, step: Step)
    requires RegistryInv(s.registry, s.conns, s.nextId, s.wg)
    requires StagesInv(InHand(s.pc), s.conns, s.registry.closed, Todo(s.shutdown))
    requires Enabled(s, step) && s.pc.Registering? && Do(s, step).pc != s.pc
    ensures Do(s, step).conns[s.pc.id].stage == Running && Do(s, step).wg == s.wg + 1
    ensures s.pc.id in Do(s, step).registry.conns
  {
  }
}
