/** What `RemoveTimer` of `common/timer/timer_manager.go` prevents, and what it does not. */
module TimerRemoval {
  import opened TimerHeap
  import opened TimerManagers

  datatype Call =
    | AddTimer(end: int, interval: int)
    | RemoveTimer(timerId: int)
    | Run(nowTm: int, limit: int, panics: nat -> bool)

  /** One of these firings is of the timer with this id. */
  ghost predicate Fires(firings: seq<Timer?>, timerId: int) {
    exists t: Timer :: t in firings && t.id == timerId
  }

  /** The timer with this id, if there is one, is out of the heap and stays out: ids are not given
      out twice. */
  ghost predicate Removed(m: TimerManager, timerId: int, calls: seq<Call>)
    reads m
  {
    && (forall t :: t in m.schedule ==> t.id != timerId)
    && (timerId <= m.id || forall i :: 0 <= i < |calls| ==> !calls[i].AddTimer?)
  }

  lemma FiresNoMore(firings: seq<Timer?>, fired: seq<Timer?>, timerId: int, n: nat)
    requires n <= |firings| && !Fires(fired, timerId)
    ensures Fires((firings + fired)[n..], timerId) <==> Fires(firings[n..], timerId)
  {
    assert (firings + fired)[n..] == firings[n..] + fired;
  }

  /** A call that comes after the removal, with the firings it adds. */
  method Answer(m: TimerManager, ghost timerId: int, calls: seq<Call>, i: nat) returns (ghost fired: seq<Timer?>)
    requires m.Valid() && i < |calls| && Removed(m, timerId, calls)
    modifies m, m.tq, m.tq.slots, m.queue, m.queue.data, m.known
    ensures m.Valid() && Removed(m, timerId, calls) && (m.queue.data == old(m.queue.data) || fresh(m.queue.data))
    ensures forall t :: t in m.known ==> t in old(m.known) || fresh(t)
    ensures old(m.attempted) <= m.attempted
    ensures m.extracted == old(m.extracted) + fired && !Fires(fired, timerId)
  {
    fired := [];
    match calls[i]
    case AddTimer(end, interval) =>
      var _, _ := m.AddTimer(end, interval);
    case RemoveTimer(other) =>
      m.RemoveTimer(other);
    case Run(nowTm, limit, panics) =>
      var _, _, round := m.Run(nowTm, limit, panics);
      fired := round;
  }

  /** Removing a timer does not recall a firing that a panic has left pending, and prevents every
      other: whatever is called afterwards, the timer is attempted or pending again exactly if it
      was pending at its removal. */
  method RemoveThenCalls(m: TimerManager, timerId: int, calls: seq<Call>)
    requires m.Valid() && (timerId <= m.id || forall i :: 0 <= i < |calls| ==> !calls[i].AddTimer?)
    modifies m, m.tq, m.tq.slots, m.queue, m.queue.data, m.known
    ensures m.Valid() && old(m.attempted) <= m.attempted
    ensures Fires(m.attempted[|old(m.attempted)|..] + m.queue.contents, timerId) <==>
            Fires(old(m.queue.contents), timerId)
  {
    m.RemoveTimer(timerId);
    ghost var n := |m.attempted|;
    assert m.extracted[n..] == m.queue.contents;
    var i := 0;
    while i < |calls|
      invariant i <= |calls| && m.Valid() && Removed(m, timerId, calls)
      invariant m.queue.data == old(m.queue.data) || fresh(m.queue.data)
      invariant forall t :: t in m.known ==> t in old(m.known) || fresh(t)
      invariant old(m.attempted) <= m.attempted && n <= |m.extracted|
      invariant Fires(m.extracted[n..], timerId) <==> Fires(old(m.queue.contents), timerId)
    {
      ghost var out := m.extracted;
      ghost var fired := Answer(m, timerId, calls, i);
      FiresNoMore(out, fired, timerId, n);
      i := i + 1;
    }
    assert m.extracted[n..] == m.attempted[n..] + m.queue.contents;
  }

  lemma TwoAreDue(first: Timer, second: Timer, fired: seq<Timer>, cur: Schedule)
    requires first != second && first.interval == 0 && second.interval == 5
    requires Round(map[first := 1, second := 2], 2, fired, cur)
    requires |fired| == Quota(0, 0, |Due(map[first := 1, second := 2], 2)|)
    ensures fired == [first, second] && cur == map[second := 7]
  {
    assert Due(map[first := 1, second := 2], 2) == {first, second};
    assert fired[0] in fired && fired[1] in fired;
    assert fired[0] == first && fired[1] == second;
  }

  lemma HasRoom(m: TimerManager)
    requires m.Valid() && |m.schedule.Keys| < m.tq.slots.Length
    ensures m.tq.len < m.tq.slots.Length
  {
    DistinctAreCounted(m.tq.timers, m.tq.members);
  }

  /** A new manager with one timer due at 1, and one due at 2 and then every 5. */
  method TwoTimers() returns (m: TimerManager, ghost first: Timer, ghost second: Timer)
    ensures m.Valid() && fresh({m, m.tq, m.tq.slots, m.queue, m.queue.data} + m.known)
    ensures first != second && first.interval == 0 && second.interval == 5 && second.id == 2
    ensures m.schedule == map[first := 1, second := 2]
    ensures m.queue.contents == m.attempted == m.extracted == []
  {
    m := new TimerManager(0);
    HasRoom(m);
    var _, one := m.AddTimer(1, 0);
    assert m.schedule == map[one := 1];
    HasRoom(m);
    var _, two := m.AddTimer(2, 5);
    first, second := one, two;
  }

  lemma OneIsAttempted(attempted: seq<Timer?>, queued: seq<Timer?>, first: Timer, second: Timer)
    requires attempted + queued == [first, second] && |attempted| == Attempts(k => k == 0, 2)
    ensures attempted == [first] && queued == [second]
  {
    AttemptsStopAt(k => k == 0, 2, 1);
    assert (attempted + queued)[0] == first && (attempted + queued)[1] == second;
  }

  /** Both are due; the first one's callback panics; the second one is removed. It is out of the
      heap, although it repeats, and yet its callback is still to be attempted. */
  method RemovedTimerIsStillPending() returns (m: TimerManager, ghost removed: Timer)
    ensures m.Valid() && removed.interval > 0 && m.schedule == map[]
    ensures |m.attempted| == 1 && m.attempted[0] != removed && m.queue.contents == [removed]
  {
    ghost var first, second;
    m, first, second := TwoTimers();
    removed := second;
    var _, _, fired := m.Run(2, 0, k => k == 0);
    TwoAreDue(first, second, fired, m.schedule);
    assert m.extracted == [first, second];
    OneIsAttempted(m.attempted, m.queue.contents, first, second);
    m.RemoveTimer(2);
  }
}
