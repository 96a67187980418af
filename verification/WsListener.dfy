/** The hand-off from WebSocket upgrade to `Accept`, `common/network/ws_impl.go:127-333`: any
    number of upgrade handlers, of callers of `Accept` and of callers of `Close`, interleaved at
    their atomic steps. */
module WsListener {

  import opened Basics

  /** `handleUpgrade`. Handler `h` upgrades at most one connection, which is named `h` too. */
  datatype Handler =
    | Arrived
    | Entered                     // counted in upgradeWg
    | Upgrading                   // has a slot
    | Offering                    // has a slot and the transport
    | Dropping                    // saw `done`; about to close the transport
    | Releasing                   // has a slot, no transport
    | Leaving
    | Answered                    // returned

  /** `Accept`. `late` says that `done` was closed when the call began. */
  datatype Acceptor =
    | Waiting(late: bool)
    | Received(t: nat, late: bool)
    | Closing(t: nat, late: bool)
    | Delivered(t: nat, late: bool)
    | Failed(err: Option<int>, late: bool)

  datatype Place = WithHandler | WithAcceptor(a: nat) | DeliveredBy(a: nat) | ClosedIn

  datatype Transport = Transport(closes: nat, place: Place)

  /** The body of closeOnce. */
  datatype Shutdown = NotBegun | Begun(cause: int) | Announced | ServerClosed | AwaitingHandlers | Over

  datatype Listener = Listener(
    maxPending: nat,
    handlers: map<nat, Handler>,
    acceptors: map<nat, Acceptor>,
    transports: map<nat, Transport>,
    done: bool,                   // `closed` and `done`, changed in one locked section
    acceptErr: Option<int>,
    slots: int, wg: int,
    shutdown: Shutdown,
    closers: set<nat>)

  predicate Init(s: Listener) {
    s == Listener(s.maxPending, map[], map[], map[], false, None, 0, 0, NotBegun, {})
  }

  function MoveTo(s: Listener, t: nat, place: Place): Listener
    requires t in s.transports
  {
    s.(transports := s.transports[t := s.transports[t].(place := place)])
  }

  function Drop(s: Listener, t: nat): Listener
    requires t in s.transports
  {
    s.(transports := s.transports[t := Transport(s.transports[t].closes + 1, ClosedIn)])
  }

  function SetHandler(s: Listener, h: nat, pc: Handler): Listener {
    s.(handlers := s.handlers[h := pc])
  }

  function SetAcceptor(s: Listener, a: nat, pc: Acceptor): Listener {
    s.(acceptors := s.acceptors[a := pc])
  }

  // ---------------------------------------------------------------------------
  // Atomic steps
  // ---------------------------------------------------------------------------

  datatype Step =
    // handleUpgrade
    | Request(h: nat)
    | Enter(h: nat)               // the locked section
    | TakeSlot(h: nat)
    | Upgrade(h: nat, ok: bool)
    | SeeDone(h: nat)
    | CloseOffered(h: nat)
    | ReleaseSlot(h: nat)
    | HandlerDone(h: nat)
    // the unbuffered channel
    | HandOver(h: nat, a: nat)
    // Accept
    | CallAccept(a: nat)
    | AcceptSeesDone(a: nat)
    | Check(a: nat)
    | CloseReceived(a: nat)
    // Close, and the end of serve
    | CallClose(n: nat)
    | EnterClose(cause: int) | Announce | CloseServer | CloseSocket | WaitReturns
    | CloseReturns(n: nat)

  predicate At(s: Listener, h: nat, pc: Handler) {
    h in s.handlers && s.handlers[h] == pc
  }

  predicate Enabled(s: Listener, step: Step) {
    match step
    case Request(h) => h !in s.handlers
    case Enter(h) => At(s, h, Arrived)
    case TakeSlot(h) => At(s, h, Entered)
    case Upgrade(h, _) => At(s, h, Upgrading)
    case SeeDone(h) => At(s, h, Offering) && s.done
    case CloseOffered(h) => At(s, h, Dropping) && h in s.transports
    case ReleaseSlot(h) => At(s, h, Releasing)
    case HandlerDone(h) => At(s, h, Leaving)
    case HandOver(h, a) => At(s, h, Offering) && h in s.transports && a in s.acceptors && s.acceptors[a].Waiting?
    case CallAccept(a) => a !in s.acceptors
    case AcceptSeesDone(a) => a in s.acceptors && s.acceptors[a].Waiting? && s.done
    case Check(a) => a in s.acceptors && s.acceptors[a].Received? && s.acceptors[a].t in s.transports
    case CloseReceived(a) => a in s.acceptors && s.acceptors[a].Closing? && s.acceptors[a].t in s.transports
    case CallClose(n) => n !in s.closers
    case EnterClose(_) => s.closers != {} && s.shutdown == NotBegun
    case Announce => s.shutdown.Begun?
    case CloseServer => s.shutdown == Announced
    case CloseSocket => s.shutdown == ServerClosed
    case WaitReturns => s.shutdown == AwaitingHandlers && s.wg == 0
    case CloseReturns(n) => n in s.closers && s.shutdown == Over
  }

  function Do(s: Listener, step: Step): Listener
    requires Enabled(s, step)
  {
    match step
    case Request(h) => SetHandler(s, h, Arrived)
    case Enter(h) => if s.done then SetHandler(s, h, Answered) else SetHandler(s, h, Entered).(wg := s.wg + 1)
    case TakeSlot(h) =>
      if s.slots < s.maxPending then SetHandler(s, h, Upgrading).(slots := s.slots + 1)
      else SetHandler(s, h, Leaving)
    case Upgrade(h, ok) =>
      if ok then SetHandler(s, h, Offering).(transports := s.transports[h := Transport(0, WithHandler)])
      else SetHandler(s, h, Releasing)
    case SeeDone(h) => SetHandler(s, h, Dropping)
    case CloseOffered(h) => SetHandler(Drop(s, h), h, Releasing)
    case ReleaseSlot(h) => SetHandler(s, h, Leaving).(slots := s.slots - 1)
    case HandlerDone(h) => SetHandler(s, h, Answered).(wg := s.wg - 1)
    case HandOver(h, a) =>
      SetAcceptor(SetHandler(MoveTo(s, h, WithAcceptor(a)), h, Releasing), a, Received(h, s.acceptors[a].late))
    case CallAccept(a) => SetAcceptor(s, a, Waiting(s.done))
    case AcceptSeesDone(a) => SetAcceptor(s, a, Failed(s.acceptErr, s.acceptors[a].late))
    case Check(a) =>
      var pc := s.acceptors[a];
      if s.done then SetAcceptor(s, a, Closing(pc.t, pc.late))
      else SetAcceptor(MoveTo(s, pc.t, DeliveredBy(a)), a, Delivered(pc.t, pc.late))
    case CloseReceived(a) =>
      var pc := s.acceptors[a];
      SetAcceptor(Drop(s, pc.t), a, Failed(s.acceptErr, pc.late))
    case CallClose(n) => s.(closers := s.closers + {n})
    case EnterClose(cause) => s.(shutdown := Begun(cause))
    case Announce => s.(done := true, acceptErr := Some(s.shutdown.cause), shutdown := Announced)
    case CloseServer => s.(shutdown := ServerClosed)
    case CloseSocket => s.(shutdown := AwaitingHandlers)
    case WaitReturns => s.(shutdown := Over)
    case CloseReturns(n) => s.(closers := s.closers - {n})
  }

  ghost predicate Next(s: Listener, s': Listener) {
    exists step :: Enabled(s, step) && s' == Do(s, step)
  }

  ghost predicate StepAt(run: seq<Listener>, i: nat)
    requires i + 1 < |run|
  {
    Next(run[i], run[i + 1])
  }

  ghost predicate Execution(run: seq<Listener>) {
    && run != [] && Init(run[0])
    && forall i :: 0 <= i < |run| - 1 ==> StepAt(run, i)
  }

  // ---------------------------------------------------------------------------
  // The invariant
  // ---------------------------------------------------------------------------

  predicate HoldsTransport(pc: Handler) {
    pc == Offering || pc == Dropping
  }

  predicate HoldsSlot(pc: Handler) {
    pc == Upgrading || HoldsTransport(pc) || pc == Releasing
  }

  predicate Counted(pc: Handler) {
    pc != Arrived && pc != Answered
  }

  function SlotHolders(handlers: map<nat, Handler>): set<nat> {
    set h | h in handlers && HoldsSlot(handlers[h])
  }

  function CountedHandlers(handlers: map<nat, Handler>): set<nat> {
    set h | h in handlers && Counted(handlers[h])
  }

  /** Where the program counters say an acceptor's transport is. */
  function PlaceOf(a: nat, pc: Acceptor): Option<(nat, Place)> {
    match pc
    case Received(t, _) => Some((t, WithAcceptor(a)))
    case Closing(t, _) => Some((t, WithAcceptor(a)))
    case Delivered(t, _) => Some((t, DeliveredBy(a)))
    case _ => None
  }

  predicate IsWith(acceptors: map<nat, Acceptor>, t: nat, place: Place) {
    place.WithAcceptor? || place.DeliveredBy? ==>
      place.a in acceptors && PlaceOf(place.a, acceptors[place.a]) == Some((t, place))
  }

  /** Each upgraded transport is in one place, and its handler and the acceptors agree on it. */
  ghost predicate TransportsInv(
    transports: map<nat, Transport>, handlers: map<nat, Handler>, acceptors: map<nat, Acceptor>)
  {
    && (forall t :: t in transports ==>
          && t in handlers && (HoldsTransport(handlers[t]) <==> transports[t].place == WithHandler)
          && handlers[t] !in {Arrived, Entered, Upgrading}
          && transports[t].closes == (if transports[t].place == ClosedIn then 1 else 0)
          && IsWith(acceptors, t, transports[t].place))
    && (forall h :: h in handlers && HoldsTransport(handlers[h]) ==> h in transports)
    && (forall a :: a in acceptors && PlaceOf(a, acceptors[a]).Some? ==>
          && PlaceOf(a, acceptors[a]).value.0 in transports
          && transports[PlaceOf(a, acceptors[a]).value.0].place == PlaceOf(a, acceptors[a]).value.1)
  }

  ghost predicate CountersInv(handlers: map<nat, Handler>, slots: int, wg: int, maxPending: nat) {
    slots == |SlotHolders(handlers)| <= maxPending && wg == |CountedHandlers(handlers)|
  }

  ghost predicate AcceptorsInv(acceptors: map<nat, Acceptor>, done: bool, acceptErr: Option<int>) {
    && (done <==> acceptErr.Some?)
    && (forall a :: a in acceptors ==>
          && (acceptors[a].late ==> done && !acceptors[a].Delivered?)
          && (acceptors[a].Closing? ==> done)
          && (acceptors[a].Failed? ==> done && acceptors[a].err == acceptErr))
  }

  ghost predicate ShutdownInv(s: Listener) {
    && (s.done <==> !s.shutdown.NotBegun? && !s.shutdown.Begun?)
    && (s.shutdown == Over ==> s.wg == 0)
  }

  ghost predicate Inv(s: Listener) {
    && TransportsInv(s.transports, s.handlers, s.acceptors)
    && CountersInv(s.handlers, s.slots, s.wg, s.maxPending)
    && AcceptorsInv(s.acceptors, s.done, s.acceptErr)
    && ShutdownInv(s)
  }

  lemma InitInv(s: Listener)
    requires Init(s)
    ensures Inv(s)
  {
    assert SlotHolders(s.handlers) == {} && CountedHandlers(s.handlers) == {};
  }

  lemma SameButFor(a: set<nat>, b: set<nat>, h: nat)
    requires a - {h} == b - {h}
    ensures |b| == |a| + (if h in b then 1 else 0) - (if h in a then 1 else 0)
  {
    var others := a - {h};
    assert a == others + if h in a then {h} else {};
    assert b == others + if h in b then {h} else {};
  }

  lemma SlotHoldersUpdated(handlers: map<nat, Handler>, h: nat, pc: Handler)
    requires h in handlers
    ensures |SlotHolders(handlers[h := pc])| == |SlotHolders(handlers)|
              + (if HoldsSlot(pc) then 1 else 0) - (if HoldsSlot(handlers[h]) then 1 else 0)
  {
    SameButFor(SlotHolders(handlers), SlotHolders(handlers[h := pc]), h);
  }

  lemma CountedUpdated(handlers: map<nat, Handler>, h: nat, pc: Handler)
    requires h in handlers
    ensures |CountedHandlers(handlers[h := pc])| == |CountedHandlers(handlers)|
              + (if Counted(pc) then 1 else 0) - (if Counted(handlers[h]) then 1 else 0)
  {
    SameButFor(CountedHandlers(handlers), CountedHandlers(handlers[h := pc]), h);
  }

  predicate HandlerStep(step: Step) {
    step.Enter? || step.TakeSlot? || step.Upgrade? || step.SeeDone? || step.CloseOffered? || step.ReleaseSlot?
    || step.HandlerDone? || step.HandOver?
  }

  lemma HandlerKeepsCounters(s: Listener, step: Step)
    requires CountersInv(s.handlers, s.slots, s.wg, s.maxPending) && ShutdownInv(s)
    requires Enabled(s, step) && HandlerStep(step)
    ensures var t := Do(s, step); CountersInv(t.handlers, t.slots, t.wg, t.maxPending) && ShutdownInv(t)
  {
    var t := Do(s, step);
    var pc := t.handlers[step.h];
    assert t.handlers == s.handlers[step.h := pc] && t.maxPending == s.maxPending && t.shutdown == s.shutdown;
    SlotHoldersUpdated(s.handlers, step.h, pc);
    CountedUpdated(s.handlers, step.h, pc);
  }

  lemma HandOverInv(s: Listener, h: nat, a: nat)
    requires Inv(s) && Enabled(s, HandOver(h, a))
    ensures Inv(Do(s, HandOver(h, a)))
  {
    var t := Do(s, HandOver(h, a));
    HandlerKeepsCounters(s, HandOver(h, a));
    assert t.handlers == s.handlers[h := Releasing] && t.acceptors == s.acceptors[a := Received(h, s.acceptors[a].late)];
    assert t.transports == s.transports[h := s.transports[h].(place := WithAcceptor(a))];
    TransportMoves(s.transports, s.handlers, s.acceptors, h, WithAcceptor(a), Releasing, a, t.acceptors[a]);
  }

  /** A transport changes hands between its handler and an acceptor, or is let go by one of them. */
  lemma TransportMoves(
    transports: map<nat, Transport>, handlers: map<nat, Handler>, acceptors: map<nat, Acceptor>,
    t: nat, place: Place, pc: Handler, a: nat, acceptor: Acceptor)
    requires TransportsInv(transports, handlers, acceptors) && t in transports && a in acceptors
    requires place != WithHandler && pc in {Releasing, handlers[t]} && !HoldsTransport(pc)
    requires PlaceOf(a, acceptor) == if place == ClosedIn then None else Some((t, place))
    requires place.WithAcceptor? || place.DeliveredBy? ==> place.a == a
    requires transports[t].place in {WithHandler, WithAcceptor(a)}
    requires PlaceOf(a, acceptors[a]) in {None, Some((t, transports[t].place))}
    ensures TransportsInv(
              transports[t := Transport(transports[t].closes + if place == ClosedIn then 1 else 0, place)],
              handlers[t := pc], acceptors[a := acceptor])
  {
  }

  lemma UpgradeInv(s: Listener, h: nat, ok: bool)
    requires Inv(s) && Enabled(s, Upgrade(h, ok))
    ensures Inv(Do(s, Upgrade(h, ok)))
  {
    HandlerKeepsCounters(s, Upgrade(h, ok));
  }

  lemma CloseOfferedInv(s: Listener, h: nat)
    requires Inv(s) && Enabled(s, CloseOffered(h))
    ensures Inv(Do(s, CloseOffered(h)))
  {
    HandlerKeepsCounters(s, CloseOffered(h));
  }

  lemma MovedKeepsTransports(s: Listener, h: nat, pc: Handler)
    requires TransportsInv(s.transports, s.handlers, s.acceptors)
    requires h in s.handlers && (HoldsTransport(pc) <==> HoldsTransport(s.handlers[h]))
    requires pc in {Arrived, Entered, Upgrading} ==> s.handlers[h] in {Arrived, Entered, Upgrading}
    ensures TransportsInv(s.transports, s.handlers[h := pc], s.acceptors)
  {
  }

  lemma HandlerMovesInv(s: Listener, step: Step)
    requires Inv(s) && Enabled(s, step) && HandlerStep(step)
    requires !step.HandOver? && !step.Upgrade? && !step.CloseOffered?
    ensures Inv(Do(s, step))
  {
    HandlerKeepsCounters(s, step);
    MovedKeepsTransports(s, step.h, Do(s, step).handlers[step.h]);
  }

  lemma RequestInv(s: Listener, h: nat)
    requires Inv(s) && Enabled(s, Request(h))
    ensures Inv(Do(s, Request(h)))
  {
    assert SlotHolders(s.handlers[h := Arrived]) == SlotHolders(s.handlers);
    assert CountedHandlers(s.handlers[h := Arrived]) == CountedHandlers(s.handlers);
  }

  predicate AcceptStep(step: Step) {
    step.CallAccept? || step.AcceptSeesDone? || step.Check? || step.CloseReceived?
  }

  lemma AcceptKeepsErrors(s: Listener, step: Step)
    requires Inv(s) && Enabled(s, step) && AcceptStep(step)
    ensures AcceptorsInv(Do(s, step).acceptors, s.done, s.acceptErr)
  {
  }

  lemma CheckInv(s: Listener, a: nat)
    requires Inv(s) && Enabled(s, Check(a))
    ensures Inv(Do(s, Check(a)))
  {
    var t, held := Do(s, Check(a)), s.acceptors[a].t;
    AcceptKeepsErrors(s, Check(a));
    assert PlaceOf(a, s.acceptors[a]) == Some((held, WithAcceptor(a)));
    assert t.handlers == s.handlers && t.acceptors == s.acceptors[a := t.acceptors[a]];
    assert s.handlers == s.handlers[held := s.handlers[held]];
    if s.done {
      assert t.transports == s.transports;
    } else {
      TransportMoves(s.transports, s.handlers, s.acceptors, held, DeliveredBy(a), s.handlers[held], a, t.acceptors[a]);
    }
  }

  lemma CloseReceivedInv(s: Listener, a: nat)
    requires Inv(s) && Enabled(s, CloseReceived(a))
    ensures Inv(Do(s, CloseReceived(a)))
  {
    var t, held := Do(s, CloseReceived(a)), s.acceptors[a].t;
    AcceptKeepsErrors(s, CloseReceived(a));
    assert PlaceOf(a, s.acceptors[a]) == Some((held, WithAcceptor(a)));
    assert t.handlers == s.handlers && t.acceptors == s.acceptors[a := t.acceptors[a]];
    assert s.handlers == s.handlers[held := s.handlers[held]];
    TransportMoves(s.transports, s.handlers, s.acceptors, held, ClosedIn, s.handlers[held], a, t.acceptors[a]);
  }

  lemma AcceptInv(s: Listener, step: Step)
    requires Inv(s) && Enabled(s, step) && (step.CallAccept? || step.AcceptSeesDone?)
    ensures Inv(Do(s, step))
  {
    AcceptKeepsErrors(s, step);
  }

  lemma CloseInv(s: Listener, step: Step)
    requires Inv(s) && Enabled(s, step) && !HandlerStep(step) && !AcceptStep(step) && !step.Request?
    ensures Inv(Do(s, step))
  {
  }

  lemma StepInv(s: Listener, step: Step)
    requires Inv(s) && Enabled(s, step)
    ensures Inv(Do(s, step))
  {
    match step
    case Request(h) => RequestInv(s, h);
    case HandOver(h, a) => HandOverInv(s, h, a);
    case Upgrade(h, ok) => UpgradeInv(s, h, ok);
    case CloseOffered(h) => CloseOfferedInv(s, h);
    case Check(a) => CheckInv(s, a);
    case CloseReceived(a) => CloseReceivedInv(s, a);
    case _ =>
      if HandlerStep(step) {
        HandlerMovesInv(s, step);
      } else if AcceptStep(step) {
        AcceptInv(s, step);
      } else {
        CloseInv(s, step);
      }
  }

  lemma {:induction false} ExecutionInv(run: seq<Listener>, i: nat)
    requires Execution(run) && i < |run|
    ensures Inv(run[i])
  {
    if i == 0 {
      InitInv(run[0]);
    } else {
      ExecutionInv(run, i - 1);
      assert StepAt(run, i - 1);
      var step :| Enabled(run[i - 1], step) && run[i] == Do(run[i - 1], step);
      StepInv(run[i - 1], step);
    }
  }

  // ---------------------------------------------------------------------------
  // Safety of every interleaving
  // ---------------------------------------------------------------------------

  predicate HandlerHolds(s: Listener, t: nat) {
    t in s.handlers && HoldsTransport(s.handlers[t])
  }

  predicate AcceptorHolds(s: Listener, a: nat, t: nat) {
    a in s.acceptors && (s.acceptors[a].Received? || s.acceptors[a].Closing?) && s.acceptors[a].t == t
  }

  predicate AcceptorDelivered(s: Listener, a: nat, t: nat) {
    a in s.acceptors && s.acceptors[a].Delivered? && s.acceptors[a].t == t
  }

  /** An upgraded transport is held by its handler, or by one call of Accept, or was delivered by
      one call of Accept, or has been closed once; and only one of these. */
  lemma HandOffIsLinear(run: seq<Listener>, i: nat, t: nat)
    requires Execution(run) && i < |run| && t in run[i].transports
    ensures var s := run[i];
            match s.transports[t].place
            case WithHandler =>
              HandlerHolds(s, t) && s.transports[t].closes == 0
              && forall a :: !AcceptorHolds(s, a, t) && !AcceptorDelivered(s, a, t)
            case WithAcceptor(b) =>
              !HandlerHolds(s, t) && s.transports[t].closes == 0
              && forall a :: (AcceptorHolds(s, a, t) <==> a == b) && !AcceptorDelivered(s, a, t)
            case DeliveredBy(b) =>
              !HandlerHolds(s, t) && s.transports[t].closes == 0
              && forall a :: !AcceptorHolds(s, a, t) && (AcceptorDelivered(s, a, t) <==> a == b)
            case ClosedIn =>
              !HandlerHolds(s, t) && s.transports[t].closes == 1
              && forall a :: !AcceptorHolds(s, a, t) && !AcceptorDelivered(s, a, t)
  {
    ExecutionInv(run, i);
    var s := run[i];
    forall a | AcceptorHolds(s, a, t) || AcceptorDelivered(s, a, t)
      ensures PlaceOf(a, s.acceptors[a]) == Some((t, s.transports[t].place))
    {
    }
  }

  /** The connections being upgraded or waiting for Accept never exceed the limit. */
  lemma PendingIsBounded(run: seq<Listener>, i: nat)
    requires Execution(run) && i < |run|
    ensures |set h | h in run[i].handlers && (run[i].handlers[h] == Upgrading || HandlerHolds(run[i], h))|
            <= run[i].slots <= run[i].maxPending
  {
    var s := run[i];
    ExecutionInv(run, i);
    var pending := set h | h in s.handlers && (s.handlers[h] == Upgrading || HandlerHolds(s, h));
    SubsetIsSmaller(pending, SlotHolders(s.handlers));
  }

  /** An Accept that begins after `done` was closed delivers nothing, and every Accept that fails
      reports the listener's one reason. */
  lemma LateAcceptDeliversNothing(run: seq<Listener>, i: nat, a: nat)
    requires Execution(run) && i < |run| && a in run[i].acceptors
    ensures run[i].acceptors[a].late ==> run[i].done && !run[i].acceptors[a].Delivered?
    ensures run[i].acceptors[a].Failed? ==>
              run[i].done && run[i].acceptErr.Some? && run[i].acceptors[a].err == run[i].acceptErr
  {
    ExecutionInv(run, i);
  }

  lemma LateStaysLate(s: Listener, step: Step, a: nat)
    requires s.done && Enabled(s, step) && (a in s.acceptors ==> s.acceptors[a].late)
    ensures Do(s, step).done && (a in Do(s, step).acceptors ==> Do(s, step).acceptors[a].late)
  {
  }

  /** In terms of the run alone: a call of Accept that is made after `done` was closed never delivers
      anything, then or later. */
  lemma {:induction false} AcceptAfterDone(run: seq<Listener>, i: nat, j: nat, a: nat)
    requires Execution(run) && i <= j < |run| && run[i].done && a !in run[i].acceptors
    ensures run[j].done && (a in run[j].acceptors ==> run[j].acceptors[a].late && !run[j].acceptors[a].Delivered?)
    decreases j
  {
    if i < j {
      AcceptAfterDone(run, i, j - 1, a);
      assert StepAt(run, j - 1);
      var step :| Enabled(run[j - 1], step) && run[j] == Do(run[j - 1], step);
      LateStaysLate(run[j - 1], step, a);
      ExecutionInv(run, j);
    }
  }

  /** When Close has waited, no handler holds a transport or a slot, and none ever gets one. */
  lemma CloseLeavesNoHandler(run: seq<Listener>, i: nat, h: nat)
    requires Execution(run) && i < |run| && run[i].shutdown == Over && h in run[i].handlers
    ensures run[i].handlers[h] in {Arrived, Answered} && !HandlerHolds(run[i], h)
    ensures run[i].handlers[h] == Arrived ==> Do(run[i], Enter(h)).handlers[h] == Answered
    ensures h in run[i].transports ==> run[i].transports[h].place != WithHandler
    ensures run[i].wg == run[i].slots == 0
  {
    var s := run[i];
    ExecutionInv(run, i);
    assert CountedHandlers(s.handlers) == {};
    assert Counted(s.handlers[h]) ==> h in CountedHandlers(s.handlers);
    assert forall x :: x in SlotHolders(s.handlers) ==> x in CountedHandlers(s.handlers);
    assert SlotHolders(s.handlers) == {};
  }

  /** Close waits for handlers only that can go on without any Accept. */
  lemma CloseIsNeverStuck(run: seq<Listener>, i: nat) returns (step: Step)
    requires Execution(run) && i < |run| && run[i].shutdown == AwaitingHandlers
    ensures Enabled(run[i], step)
    ensures step == WaitReturns || (HandlerStep(step) && !step.HandOver? && !step.Enter?)
  {
    var s := run[i];
    ExecutionInv(run, i);
    if s.wg == 0 {
      step := WaitReturns;
    } else {
      var h :| h in CountedHandlers(s.handlers);
      step := match s.handlers[h]
              case Entered => TakeSlot(h)
              case Upgrading => Upgrade(h, false)
              case Offering => SeeDone(h)
              case Dropping => CloseOffered(h)
              case Releasing => ReleaseSlot(h)
              case _ => HandlerDone(h);
    }
  }

  // ---------------------------------------------------------------------------
  // Nobody is turned away without a reason
  // ---------------------------------------------------------------------------

  /** A handler moves on to be refused only by a closed listener or by lack of a slot, and to drop
      its connection only after `done`; otherwise it upgrades and offers it. */
  lemma RefusedOnlyThen(s: Listener, step: Step, h: nat)
    requires CountersInv(s.handlers, s.slots, s.wg, s.maxPending) && Enabled(s, step)
    requires h in s.handlers && Do(s, step).handlers[h] != s.handlers[h]
    ensures var slots := |set x | x in s.handlers && s.handlers[x] in {Upgrading, Offering, Dropping, Releasing}|;
            match s.handlers[h]
            case Arrived => Do(s, step).handlers[h] == if s.done then Answered else Entered
            case Entered => Do(s, step).handlers[h] == if slots < s.maxPending then Upgrading else Leaving
            case Upgrading => step.Upgrade? && Do(s, step).handlers[h] == if step.ok then Offering else Releasing
            case Offering =>
              if step.SeeDone? then s.done && Do(s, step).handlers[h] == Dropping
              else step.HandOver? && Do(s, step).handlers[h] == Releasing && Do(s, step).acceptors[step.a].Received?
            case Dropping => Do(s, step).handlers[h] == Releasing && Do(s, step).transports[h].place == ClosedIn
            case Releasing => Do(s, step).handlers[h] == Leaving
            case _ => Do(s, step).handlers[h] == Answered
  {
    assert SlotHolders(s.handlers) == set x | x in s.handlers && s.handlers[x] in {Upgrading, Offering, Dropping, Releasing};
  }

  /** Accept fails only on a closed listener, and delivers the connection it has received as long as
      the listener is open. */
  lemma AcceptFailsOnlyThen(s: Listener, step: Step, a: nat)
    requires Inv(s) && Enabled(s, step) && a in s.acceptors && Do(s, step).acceptors[a] != s.acceptors[a]
    ensures match Do(s, step).acceptors[a]
            case Waiting(_) => false
            case Received(t, _) => s.acceptors[a].Waiting? && At(s, t, Offering)
            case Closing(t, _) => s.acceptors[a].Received? && s.acceptors[a].t == t && s.done
            case Delivered(t, _) => s.acceptors[a].Received? && s.acceptors[a].t == t && !s.done
            case Failed(_, _) => s.done
  {
  }

  /** The reason of a closed listener is the one its first close came with. */
  lemma {:induction false} ReasonIsTheFirst(run: seq<Listener>, i: nat, j: nat)
    requires Execution(run) && i <= j < |run| && !run[i].shutdown.NotBegun?
    requires run[i].shutdown.Begun? || run[i].acceptErr.Some?
    ensures run[j].shutdown.Begun? || run[j].acceptErr.Some?
    ensures var reason := if run[i].acceptErr.Some? then run[i].acceptErr else Some(run[i].shutdown.cause);
            if run[j].acceptErr.Some? then run[j].acceptErr == reason else reason == Some(run[j].shutdown.cause)
    decreases j
  {
    if i < j {
      ReasonIsTheFirst(run, i, j - 1);
      ExecutionInv(run, j - 1);
      assert StepAt(run, j - 1);
      var step :| Enabled(run[j - 1], step) && run[j] == Do(run[j - 1], step);
      ReasonStays(run[j - 1], step);
    }
  }

  lemma ReasonStays(s: Listener, step: Step)
    requires ShutdownInv(s) && AcceptorsInv(s.acceptors, s.done, s.acceptErr) && Enabled(s, step)
    ensures s.acceptErr.Some? ==> Do(s, step).acceptErr == s.acceptErr
    ensures s.shutdown.Begun? ==>
              Do(s, step).acceptErr == Some(s.shutdown.cause)
              || (Do(s, step).shutdown == s.shutdown && Do(s, step).acceptErr == None)
  {
  }
}
