/** The timer scheduler of `common/timer/timer_manager.go`. */
module TimerManagers {
  import opened Queues
  import opened TimerHeap

  const DEFAULT_TIMER_QUEUE_SIZE := 1024

  // ---------------------------------------------------------------------------
  // What one round of extraction does to a schedule
  // ---------------------------------------------------------------------------

  /** A timer mapped to the time it is due. */
  type Schedule = map<Timer, int>

  ghost function Due(s: Schedule, now: int): set<Timer> {
    set t | t in s && s[t] <= now
  }

  /** The schedule after `fired` have been taken out at time `now`: repeating timers are
      due again one interval from now, one-shot timers are gone, the others are untouched. */
  ghost function After(s: Schedule, now: int, fired: seq<Timer>): Schedule {
    map t | t in s && (t in fired ==> t.interval > 0) :: if t in fired then now + t.interval else s[t]
  }

  /** `fired` are due timers, each once, soonest first, with no due timer left behind that
      was due before one of them. */
  ghost predicate FiresInOrder(s: Schedule, now: int, fired: seq<Timer>) {
    && (forall t :: t in fired ==> t in s && s[t] <= now)
    && (forall i, j :: 0 <= i < j < |fired| ==> fired[i] != fired[j])
    && (forall i, j :: 0 <= i < j < |fired| ==> s[fired[i]] <= s[fired[j]])
    && (forall t, u :: t in fired && u in s && u !in fired ==> s[t] <= s[u])
  }

  /** How many of `due` timers a round takes out when `waiting` firings are left over from
      earlier rounds. */
  function Quota(limit: int, waiting: nat, due: nat): (n: nat)
    ensures n <= due && (due > 0 ==> n > 0)
    ensures limit <= 0 ==> n == due
    ensures 0 < limit && n > 1 ==> waiting + n <= limit
    ensures 0 < limit && n < due ==> waiting + n >= limit
  {
    if limit <= 0 then due
    else
      var room := if limit > waiting then limit - waiting else 1;
      if due < room then due else room
  }

  /** In the course of a round: `fired` have been taken out of `s`, which leaves `cur`. */
  ghost predicate Round(s: Schedule, now: int, fired: seq<Timer>, cur: Schedule) {
    FiresInOrder(s, now, fired) && cur == After(s, now, fired) && |fired| <= |Due(s, now)|
  }

  /** `cur` once `t` has been taken out and, if it repeats, put back. */
  ghost function Without(cur: Schedule, now: int, t: Timer): Schedule {
    if t.interval > 0 then (cur - {t})[t := now + t.interval] else cur - {t}
  }

  /** What a round is: each timer taken out was due, and none it leaves behind was due before one of
      them; it is due again one interval after the round, if it repeats, and else gone; and the
      others keep their times. */
  lemma RoundMeans(s: Schedule, now: int, fired: seq<Timer>, cur: Schedule)
    requires Round(s, now, fired, cur)
    ensures forall t :: t in fired ==> t in s && s[t] <= now
    ensures forall i, j :: 0 <= i < j < |fired| ==> fired[i] != fired[j] && s[fired[i]] <= s[fired[j]]
    ensures forall t, u :: t in fired && u in s && u !in fired ==> s[t] <= s[u]
    ensures forall t :: t in fired ==> if t.interval > 0 then t in cur && cur[t] == now + t.interval else t !in cur
    ensures forall t :: t !in fired ==> (t in cur <==> t in s)
    ensures forall t :: t !in fired && t in s ==> cur[t] == s[t]
    ensures |fired| <= |set t | t in s && s[t] <= now|
  {
    assert Due(s, now) == set t | t in s && s[t] <= now;
  }

  lemma RoundGoesOn(s: Schedule, now: int, fired: seq<Timer>, cur: Schedule, t: Timer)
    requires Round(s, now, fired, cur)
    requires t in cur && cur[t] <= now && forall u :: u in cur ==> cur[t] <= cur[u]
    ensures Round(s, now, fired + [t], Without(cur, now, t))
  {
    var fired' := fired + [t];
    assert t !in fired && s[t] == cur[t];
    forall x, u | x in fired' && u in s && u !in fired'
      ensures s[x] <= s[u]
    {
      assert u in cur;
    }
    DistinctAreCounted(fired', Due(s, now));
    assert After(s, now, fired') == Without(cur, now, t);
  }

  lemma {:induction false} DistinctAreCounted(fired: seq<Timer>, due: set<Timer>)
    requires forall t :: t in fired ==> t in due
    requires forall i, j :: 0 <= i < j < |fired| ==> fired[i] != fired[j]
    ensures |fired| <= |due|
    ensures (forall t :: t in due ==> t in fired) ==> |fired| == |due|
  {
    if fired == [] {
    } else {
      var t, rest := fired[|fired| - 1], fired[..|fired| - 1];
      assert t !in rest;
      DistinctAreCounted(rest, due - {t});
      assert fired == rest + [t];
    }
  }

  /** A round that stopped, because the limit was reached or nothing due was left, has taken
      out exactly its quota. */
  lemma RoundMeetsQuota(s: Schedule, now: int, fired: seq<Timer>, cur: Schedule, limit: int, waiting: nat)
    requires Round(s, now, fired, cur)
    requires 0 < limit && |fired| > 1 ==> waiting + |fired| <= limit
    requires (0 < limit <= waiting + |fired| && fired != []) || forall t :: t in cur ==> now < cur[t]
    ensures |fired| == Quota(limit, waiting, |Due(s, now)|)
  {
    DistinctAreCounted(fired, Due(s, now));
    if forall t :: t in cur ==> now < cur[t] {
      forall t | t in Due(s, now)
        ensures t in fired
      {
        assert t !in fired ==> t in cur;
      }
    }
  }

  lemma OneMore(attempted: seq<Timer?>, queued: seq<Timer?>, timer: Timer)
    ensures attempted + (queued + [timer]) == attempted + queued + [timer]
  {
  }

  lemma AllOut(attempted: seq<Timer?>, waiting: seq<Timer?>, fired: seq<Timer>)
    ensures attempted + (waiting + fired) == (attempted + waiting) + fired
  {
  }

  lemma FirstAttempted(attempted: seq<Timer?>, waiting: seq<Timer?>, timer: Timer?, rest: seq<Timer?>)
    requires waiting == [timer] + rest
    ensures attempted + waiting == (attempted + [timer]) + rest
  {
  }

  lemma AppendedLast(queued: seq<Timer?>, waiting: seq<Timer?>, fired: seq<Timer>, timer: Timer, more: seq<Timer>)
    requires queued == waiting + fired && more == fired + [timer]
    ensures queued + [timer] == waiting + more
  {
  }

  /** How many of `n` callbacks are attempted: all, or up to and including the first that
      panics. */
  function Attempts(panics: nat -> bool, n: nat): (k: nat)
    ensures k <= n
    ensures forall i :: 0 <= i < k - 1 ==> !panics(i)
    ensures (forall i :: 0 <= i < k ==> !panics(i)) ==> k == n
  {
    if n == 0 then 0
    else
      var k := Attempts(panics, n - 1);
      if k > 0 && panics(k - 1) then k else n
  }

  lemma AttemptsStopAt(panics: nat -> bool, n: nat, k: nat)
    requires k <= n && forall i :: 0 <= i < k - 1 ==> !panics(i)
    requires k == n || (k > 0 && panics(k - 1))
    ensures Attempts(panics, n) == k
  {
    var a := Attempts(panics, n);
    assert a < n ==> exists i :: 0 <= i < a && panics(i);
  }

  // ---------------------------------------------------------------------------
  // The manager
  // ---------------------------------------------------------------------------

  class TimerManager {
    var id: int
    const tq: TimerQueue
    const queue: Queue<Timer?>
    ghost var schedule: Schedule      // when each timer in the heap is due
    ghost var known: set<Timer>       // every timer ever created
    ghost var byId: map<int, Timer>
    ghost var extracted: seq<Timer?>  // every firing so far, in order
    ghost var attempted: seq<Timer?>  // and those whose callback has been attempted

    /** Every firing has been attempted or is pending, in order: none is lost, repeated or
        overtaken, whatever the calls so far and the panics in them. */
    ghost predicate Valid()
      reads this, tq, tq.slots, tq.members, queue, queue.data, known
    {
      && HeapValid() && queue.Valid() && queue.data != tq.slots && (forall t :: t in queue.contents ==> t in known)
      && attempted + queue.contents == extracted
    }

    ghost predicate HeapValid()
      reads `id, `schedule, `known, `byId, tq, tq.slots, tq.members, known
    {
      && tq.Valid() && tq.members <= known && IdsValid()
      && schedule.Keys == tq.members && (forall t :: t in tq.members ==> schedule[t] == t.end)
      && (forall t :: t in known && t !in tq.members ==> t.index == -1)
    }

    /** No id has been given out twice. */
    ghost predicate IdsValid()
      reads `id, `known, `byId
    {
      0 <= id && forall t :: t in known ==> 1 <= t.id <= id && t.id in byId && byId[t.id] == t
    }

    constructor (size: int)
      ensures Valid() && fresh({tq, tq.slots, queue, queue.data})
      ensures schedule == map[] && queue.contents == attempted == extracted == [] && known == {} && id == 0
      ensures tq.slots.Length == if size <= 0 then 1024 else size
    {
      var capacity := size;
      if size <= 0 {
        capacity := DEFAULT_TIMER_QUEUE_SIZE;
      }
      id := 0;
      tq := new TimerQueue(capacity);
      queue := new Queue<Timer?>(null);
      schedule, known, byId, attempted, extracted := map[], {}, map[], [], [];
    }

    /** Answers the new timer's id, or 0 when the heap is full. */
    method AddTimer(end: int, interval: int) returns (timerId: int, ghost added: Timer?)
      requires Valid()
      modifies this, tq, tq.slots, tq.members`index
      ensures Valid() && queue.contents == old(queue.contents)
      ensures attempted == old(attempted) && extracted == old(extracted)
      ensures if old(tq.len) == tq.slots.Length then
                timerId == 0 && id == old(id) && known == old(known) && schedule == old(schedule)
              else
                && timerId == id == old(id) + 1
                && fresh(added) && added.id == timerId && added.interval == interval
                && known == old(known) + {added} && schedule == old(schedule)[added := end]
    {
      added := null;
      if tq.slots.Length <= tq.Len() {
        return 0, null;
      }
      var timer := new Timer(id + 1, end, interval);
      added := timer;
      Admit(timer);
      timerId := timer.id;
    }

    /** Counts the new timer and puts it into the heap. */
    method Admit(timer: Timer)
      requires HeapValid() && tq.len < tq.slots.Length && timer !in known && timer.id == id + 1
      modifies `id, `known, `byId, `schedule, tq, tq.slots, tq.members`index, timer`index
      ensures HeapValid() && id == old(id) + 1
      ensures known == old(known) + {timer} && schedule == old(schedule)[timer := timer.end]
    {
      assert timer !in tq.timers;
      id := id + 1;
      known, byId := known + {timer}, byId[id := timer];
      assert IdsValid();
      HeapPush(tq, timer);
      schedule := schedule[timer := timer.end];
    }

    /** Takes the timer with this id out of the heap, wherever it is; one whose firing is
        already pending is not recalled. */
    method RemoveTimer(timerId: int)
      requires Valid()
      modifies `schedule, tq, tq.slots, known`index
      ensures Valid()
      ensures queue.contents == old(queue.contents) && attempted == old(attempted) && extracted == old(extracted)
      ensures schedule == map t | t in old(schedule) && t.id != timerId :: old(schedule)[t]
    {
      var i := 0;
      while i < tq.len
        invariant i <= tq.len && unchanged(this, tq, tq.slots, known)
        invariant forall k :: 0 <= k < i ==> tq.timers[k].id != timerId
      {
        if tq.slots[i].id == timerId {
          var timer := TakeOut(tq.slots[i].index);
          assert forall t :: t in known && t.id == timerId ==> t == timer;
          break;
        }
        i := i + 1;
      }
    }

    method TakeOut(i: nat) returns (timer: Timer)
      requires HeapValid() && i < tq.len
      modifies `schedule, tq, tq.slots, tq.members`index
      ensures HeapValid() && timer == old(tq.timers[i]) && timer in known && schedule == old(schedule) - {timer}
    {
      timer := HeapRemove(tq, i);
      schedule := schedule - {timer};
    }

    /** One scheduling round: takes out due timers, then attempts every pending callback;
        `panics(k)` says whether the k-th attempt of this round panics. */
    method Run(nowTm: int, limit: int, panics: nat -> bool)
      returns (checkCount: int, callCount: int, ghost fired: seq<Timer>)
      requires Valid()
      modifies this, tq, tq.slots, queue, queue.data, known
      ensures Valid() && (queue.data == old(queue.data) || fresh(queue.data))
      ensures id == old(id) && known == old(known)
      // what is taken out of the heap
      ensures Round(old(schedule), nowTm, fired, schedule)
      ensures |fired| == Quota(limit, |old(queue.contents)|, |Due(old(schedule), nowTm)|)
      // it is attempted, after what was left over before, or still queued
      ensures extracted == old(extracted) + fired && old(attempted) <= attempted
      ensures |attempted| == |old(attempted)| + Attempts(panics, |old(queue.contents)| + |fired|)
      ensures var k := |attempted| - |old(attempted)|;
              if k > 0 && panics(k - 1) then checkCount == callCount == 0
              else
                && queue.contents == [] && callCount == k
                && checkCount == |fired| + if tq.len == 0 || (0 < limit <= k && fired != []) then 0 else 1
    {
      checkCount, fired := Extract(nowTm, limit);
      var panicked;
      callCount, panicked := Fire(panics);
      if panicked {
        // the deferred recover leaves both results at their zero values
        checkCount, callCount := 0, 0;
      }
    }

    method Fire(panics: nat -> bool) returns (callCount: nat, panicked: bool)
      requires queue.Valid()
      modifies `attempted, queue, queue.data
      ensures queue.Valid() && (queue.data == old(queue.data) || fresh(queue.data))
      ensures callCount == Attempts(panics, |old(queue.contents)|)
      ensures panicked <==> callCount > 0 && panics(callCount - 1)
      ensures !panicked ==> queue.contents == []
      ensures attempted + queue.contents == old(attempted + queue.contents)
      ensures |attempted| == |old(attempted)| + callCount && old(attempted) <= attempted
      ensures forall t :: t in queue.contents ==> t in old(queue.contents)
    {
      callCount, panicked := 0, false;
      while queue.Size() > 0
        invariant queue.Valid() && (queue.data == old(queue.data) || fresh(queue.data))
        invariant attempted + queue.contents == old(attempted + queue.contents)
        invariant |attempted| == |old(attempted)| + callCount && old(attempted) <= attempted
        invariant forall t :: t in queue.contents ==> t in old(queue.contents)
        invariant forall i :: 0 <= i < callCount ==> !panics(i)
        decreases |queue.contents|
      {
        callCount := callCount + 1;
        ghost var waiting := queue.contents;
        var timer := queue.Pop();
        FirstAttempted(attempted, waiting, timer, queue.contents);
        attempted := attempted + [timer];
        if panics(callCount - 1) {
          panicked := true;
          break;
        }
      }
      AttemptsStopAt(panics, |old(queue.contents)|, callCount);
    }

    method Extract(nowTm: int, limit: int) returns (checkCount: int, ghost fired: seq<Timer>)
      requires Valid()
      modifies `schedule, `extracted, tq, tq.slots, queue, queue.data, known
      ensures Valid() && (queue.data == old(queue.data) || fresh(queue.data))
      ensures queue.contents == old(queue.contents) + fired && extracted == old(extracted) + fired
      ensures Round(old(schedule), nowTm, fired, schedule)
      ensures |fired| == Quota(limit, |old(queue.contents)|, |Due(old(schedule), nowTm)|)
      ensures checkCount == |fired| + if tq.len == 0 || (0 < limit <= |queue.contents| && fired != []) then 0 else 1
    {
      checkCount, fired := 0, [];
      ghost var sched, waiting := schedule, queue.contents;
      while tq.Len() > 0
        invariant Valid() && (queue.data == old(queue.data) || fresh(queue.data))
        invariant queue.contents == waiting + fired
        invariant Round(sched, nowTm, fired, schedule) && checkCount == |fired|
        invariant 0 < limit && fired != [] ==> |queue.contents| < limit
        decreases |Due(sched, nowTm)| - |fired|
      {
        checkCount := checkCount + 1;
        FirstIsDueFirst(tq);
        var tmp := tq.slots[0];
        if tmp.end > nowTm {
          break;
        }
        ghost var cur, queued := schedule, queue.contents;
        var timer := ExtractFirst(nowTm);
        RoundGoesOn(sched, nowTm, fired, cur, timer);
        ghost var more := fired + [timer];
        AppendedLast(queued, waiting, fired, timer, more);
        fired := more;
        if limit > 0 && queue.Size() >= limit {
          break;
        }
      }
      AllOut(attempted, waiting, fired);
      RoundMeetsQuota(sched, nowTm, fired, schedule, limit, |old(queue.contents)|);
    }

    /** Moves the first timer of the heap to the pending queue and reschedules it if it
        repeats. */
    method ExtractFirst(nowTm: int) returns (timer: Timer)
      requires Valid() && tq.len > 0
      modifies `schedule, `extracted, tq, tq.slots, queue, queue.data, known
      ensures Valid() && (queue.data == old(queue.data) || fresh(queue.data))
      ensures queue.contents == old(queue.contents) + [timer] && extracted == old(extracted) + [timer]
      ensures timer == old(tq.timers[0]) && timer in old(schedule)
      ensures schedule == Without(old(schedule), nowTm, timer)
    {
      timer := PopFirst();
      Enqueue(timer);
      if timer.interval > 0 {
        Reschedule(timer, nowTm + timer.interval);
      }
    }

    method Enqueue(timer: Timer)
      requires queue.Valid() && attempted + queue.contents == extracted
      modifies `extracted, queue, queue.data
      ensures queue.Valid() && (queue.data == old(queue.data) || fresh(queue.data))
      ensures queue.contents == old(queue.contents) + [timer] && extracted == old(extracted) + [timer]
      ensures attempted + queue.contents == extracted
    {
      OneMore(attempted, queue.contents, timer);
      queue.Push(timer);
      extracted := extracted + [timer];
    }

    method PopFirst() returns (timer: Timer)
      requires HeapValid() && tq.len > 0
      modifies `schedule, tq, tq.slots, tq.members`index
      ensures HeapValid() && timer in known && tq.len < tq.slots.Length
      ensures timer == old(tq.timers[0]) && timer in old(schedule) && schedule == old(schedule) - {timer}
    {
      timer := HeapPop(tq);
      schedule := schedule - {timer};
    }

    method Reschedule(timer: Timer, end: int)
      requires HeapValid() && timer in known && timer !in schedule && tq.len < tq.slots.Length
      modifies `schedule, tq, tq.slots, tq.members`index, timer`index, timer`end
      ensures HeapValid() && schedule == old(schedule)[timer := end]
    {
      timer.end := end;
      schedule := schedule[timer := end];
      HeapPush(tq, timer);
    }
  }
}
