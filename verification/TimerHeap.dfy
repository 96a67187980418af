/** The index-tracking min-heap of `common/timer/timer.go`, driven by the sift loops of
    Go's `container/heap`. */
module TimerHeap {

  // ---------------------------------------------------------------------------
  // Heap order on plain sequences of deadlines
  // ---------------------------------------------------------------------------

  predicate Child(p: int, c: int) {
    0 <= p && (c == 2 * p + 1 || c == 2 * p + 2)
  }

  function Parent(c: nat): (p: nat)
    requires c > 0
    ensures Child(p, c) && p < c
  {
    (c - 1) / 2
  }

  ghost predicate Ordered(s: seq<int>, n: nat)
    requires n <= |s|
  {
    forall p, c :: Child(p, c) && c < n ==> s[p] <= s[c]
  }

  /** The children of `i` are no smaller than the parent of `i`. */
  ghost predicate Bridged(s: seq<int>, n: nat, i: nat)
    requires n <= |s|
  {
    forall p, c :: Child(p, i) && Child(i, c) && c < n ==> s[p] <= s[c]
  }

  /** Heap order may fail only between `j` and its parent. */
  ghost predicate OrderedAbove(s: seq<int>, n: nat, j: nat)
    requires n <= |s|
  {
    Bridged(s, n, j) && forall p, c :: Child(p, c) && c < n && c != j ==> s[p] <= s[c]
  }

  /** Heap order may fail only between `i` and its children. */
  ghost predicate OrderedBelow(s: seq<int>, n: nat, i: nat)
    requires n <= |s|
  {
    Bridged(s, n, i) && forall p, c :: Child(p, c) && c < n && p != i ==> s[p] <= s[c]
  }

  /** Heap order may fail only between `i` and its neighbours. */
  ghost predicate OrderedAround(s: seq<int>, n: nat, i: nat)
    requires n <= |s|
  {
    Bridged(s, n, i) && forall p, c :: Child(p, c) && c < n && p != i && c != i ==> s[p] <= s[c]
  }

  /** An element that started at `i0` has sunk to `i`. */
  ghost predicate Sinking(s: seq<int>, n: nat, i0: nat, i: nat)
    requires n <= |s|
  {
    OrderedAround(s, n, i) && (i != i0 ==> OrderedBelow(s, n, i))
  }

  ghost predicate ChildrenAtLeast(s: seq<int>, n: nat, i: nat, least: int)
    requires n <= |s|
  {
    forall c :: Child(i, c) && c < n ==> least <= s[c]
  }

  function Swapped<T>(s: seq<T>, i: nat, j: nat): (r: seq<T>)
    requires i < |s| && j < |s|
    ensures |r| == |s| && r[i] == s[j] && r[j] == s[i]
    ensures forall k :: 0 <= k < |s| && k != i && k != j ==> r[k] == s[k]
  {
    s[i := s[j]][j := s[i]]
  }

  lemma {:induction false} RootIsLeast(s: seq<int>, n: nat, k: nat)
    requires k < n <= |s| && Ordered(s, n)
    ensures s[0] <= s[k]
  {
    if k > 0 {
      RootIsLeast(s, n, Parent(k));
    }
  }

  lemma SiftUpStep(s: seq<int>, n: nat, i: nat, j: nat)
    requires Child(i, j) && j < n <= |s| && OrderedAbove(s, n, j) && s[j] < s[i]
    ensures OrderedAbove(Swapped(s, i, j), n, i)
  {
    var r := Swapped(s, i, j);
    forall p, c | Child(p, c) && c < n && c != i
      ensures r[p] <= r[c]
    {
      assert Child(i, j);
      if p == j { assert s[i] <= s[c]; }
    }
    forall p, c | Child(p, i) && Child(i, c) && c < n
      ensures r[p] <= r[c]
    {
      assert s[p] <= s[i];
    }
  }

  lemma SiftDownStep(s: seq<int>, n: nat, i0: nat, i: nat, j: nat)
    requires Child(i, j) && j < n <= |s| && Sinking(s, n, i0, i) && s[j] < s[i] && i0 <= i
    requires ChildrenAtLeast(s, n, i, s[j])
    ensures Sinking(Swapped(s, i, j), n, i0, j)
  {
    var r := Swapped(s, i, j);
    forall p, c | Child(p, c) && c < n && p != j
      ensures r[p] <= r[c]
    {
      assert Child(i, j);
    }
    forall p, c | Child(p, j) && Child(j, c) && c < n
      ensures r[p] <= r[c]
    {
      assert p == i;
    }
  }

  lemma LastTakesPlaceOf(s: seq<int>, i: nat)
    requires i < |s| && Ordered(s, |s|)
    ensures OrderedAround(Swapped(s, i, |s| - 1), |s| - 1, i)
  {
    var n := |s| - 1;
    forall p, c | Child(p, i) && Child(i, c) && c < n
      ensures s[p] <= s[c]
    {
      assert s[p] <= s[i] <= s[c];
    }
  }

  lemma SiftUpDone(s: seq<int>, n: nat, j: nat)
    requires j < n <= |s| && OrderedAbove(s, n, j)
    requires j == 0 || s[Parent(j)] <= s[j]
    ensures Ordered(s, n)
  {
  }

  lemma SiftDownDone(s: seq<int>, n: nat, i0: nat, i: nat)
    requires i0 <= i < n <= |s| && Sinking(s, n, i0, i)
    requires ChildrenAtLeast(s, n, i, s[i])
    ensures if i > i0 then Ordered(s, n) else OrderedAbove(s, n, i)
  {
  }

  // ---------------------------------------------------------------------------
  // Timers and the queue that orders them
  // ---------------------------------------------------------------------------

  class Timer {
    const id: int
    const interval: int
    var end: int
    var index: int

    constructor (id: int, end: int, interval: int)
      ensures this.id == id && this.end == end && this.interval == interval && index == 0
    {
      this.id, this.end, this.interval, this.index := id, end, interval, 0;
    }
  }

  class TimerQueue {
    const slots: array<Timer?>     // preallocated, never replaced
    var len: nat
    ghost var timers: seq<Timer>   // the occupied slots
    ghost var members: set<Timer>  // the timers in them
    ghost var ends: seq<int>       // and when each is due

    ghost predicate Valid()
      reads this, slots, members
    {
      Placed() && Ordered(ends, len)
    }

    /** Every occupied slot holds a timer that knows its slot; every other slot is cleared. */
    ghost predicate Placed()
      reads this, slots, members
    {
      && |timers| == |ends| == len <= slots.Length
      && (forall i :: 0 <= i < len ==> timers[i] in members && slots[i] == timers[i] && timers[i].index == i)
      && (forall i :: 0 <= i < len ==> timers[i].end == ends[i])
      && (forall t :: t in members ==> 0 <= t.index < len && timers[t.index] == t)
      && (forall i :: len <= i < slots.Length ==> slots[i] == null)
    }

    constructor (size: nat)
      ensures Valid() && timers == [] && members == {} && fresh(slots) && slots.Length == size
    {
      slots := new Timer?[size](_ => null);
      len := 0;
      timers := [];
      members, ends := {}, [];
    }

    function Len(): nat
      reads this
    {
      len
    }

    function Less(i: nat, j: nat): (r: bool)
      requires Placed() && i < len && j < len
      reads this, slots, members
      ensures r <==> ends[i] < ends[j]
    {
      slots[i].end < slots[j].end
    }

    method Swap(i: nat, j: nat)
      requires Placed() && i < len && j < len
      modifies slots, this`timers, this`ends, members`index
      ensures Placed() && timers == Swapped(old(timers), i, j)
      ensures ends == Swapped(old(ends), i, j)
    {
      slots[i], slots[j] := slots[j], slots[i];
      slots[i].index := i;
      slots[j].index := j;
      timers, ends := Swapped(timers, i, j), Swapped(ends, i, j);
    }

    /** Takes the next preallocated slot; the caller has checked that there is one. */
    method Push(timer: Timer)
      requires Placed() && len < slots.Length && timer !in timers
      modifies this, slots, timer`index
      ensures Placed() && timers == old(timers) + [timer] && members == old(members) + {timer}
      ensures ends == old(ends) + [timer.end]
    {
      var length := len;
      timer.index := length;
      slots[length] := timer;
      len := length + 1;
      timers := timers + [timer];
      members, ends := members + {timer}, ends + [timer.end];
    }

    /** Vacates the last slot; on an empty queue answers nil and changes nothing. */
    method Pop() returns (timer: Timer?)
      requires Placed()
      modifies this, slots, members`index
      ensures Placed()
      ensures old(timers) == [] ==> timer == null && timers == []
      ensures old(timers) != [] ==> timer != null && old(timers) == timers + [timer] && timer.index == -1
      ensures old(timers) != [] ==> members == old(members) - {timer}
      ensures ends == old(ends)[..len]
    {
      var length := len;
      if length == 0 {
        return null;
      }
      timer := slots[length - 1];
      slots[length - 1] := null;
      timer.index := -1;
      len := length - 1;
      timers := timers[..len];
      members, ends := members - {timer}, ends[..len];
    }
  }

  lemma FirstIsDueFirst(h: TimerQueue)
    requires h.Valid()
    ensures forall t :: t in h.members ==> h.timers[0].end <= t.end
  {
    forall t | t in h.members
      ensures h.timers[0].end <= t.end
    {
      RootIsLeast(h.ends, h.len, t.index);
    }
  }

  /** The timers from slot `n` on have not moved. */
  ghost predicate SameFrom(ts: seq<Timer>, was: seq<Timer>, n: nat) {
    |ts| == |was| && forall k :: n <= k < |ts| ==> ts[k] == was[k]
  }

  // ---------------------------------------------------------------------------
  // container/heap over the queue
  // ---------------------------------------------------------------------------

  method Up(h: TimerQueue, start: nat, ghost n: nat)
    requires h.Placed() && start < n <= h.len && OrderedAbove(h.ends, n, start)
    modifies h.slots, h`timers, h`ends, h.members`index
    ensures h.Placed() && Ordered(h.ends, n) && SameFrom(h.timers, old(h.timers), n)
  {
    var j: nat := start;
    while true
      invariant h.Placed() && j < n && OrderedAbove(h.ends, n, j)
      invariant SameFrom(h.timers, old(h.timers), n)
      decreases j
    {
      var i: nat := if j == 0 then 0 else Parent(j);
      if i == j || !h.Less(j, i) {
        SiftUpDone(h.ends, n, j);
        break;
      }
      SiftUpStep(h.ends, n, i, j);
      h.Swap(i, j);
      j := i;
    }
  }

  /** One round of `Down`: swaps `i` with its lesser child, if that is less, and says
      where the element now is. */
  method SinkOnce(h: TimerQueue, i0: nat, i: nat, n: nat) returns (j: nat)
    requires h.Placed() && i0 <= i < n <= h.len && Sinking(h.ends, n, i0, i)
    modifies h.slots, h`timers, h`ends, h.members`index
    ensures h.Placed() && i <= j < n && Sinking(h.ends, n, i0, j)
    ensures j == i ==> ChildrenAtLeast(h.ends, n, i, h.ends[i])
    ensures SameFrom(h.timers, old(h.timers), n)
  {
    var j1 := 2 * i + 1;
    if j1 >= n {
      return i;
    }
    j := j1;
    var j2 := j1 + 1;
    if j2 < n && h.Less(j2, j1) {
      j := j2;
    }
    assert ChildrenAtLeast(h.ends, n, i, h.ends[j]);
    if !h.Less(j, i) {
      return i;
    }
    SiftDownStep(h.ends, n, i0, i, j);
    h.Swap(i, j);
  }

  /** Sifts `i0` down among the first `n` slots and reports whether it moved. */
  method Down(h: TimerQueue, i0: nat, n: nat) returns (moved: bool)
    requires h.Placed() && i0 <= n <= h.len && OrderedAround(h.ends, n, i0)
    modifies h.slots, h`timers, h`ends, h.members`index
    ensures h.Placed() && SameFrom(h.timers, old(h.timers), n)
    ensures if moved then Ordered(h.ends, n) else OrderedAbove(h.ends, n, i0)
  {
    var i: nat := i0;
    while i < n
      invariant h.Placed() && i0 <= i <= n && Sinking(h.ends, n, i0, i)
      invariant i == n ==> i0 == n
      invariant SameFrom(h.timers, old(h.timers), n)
      decreases n - i
    {
      var j := SinkOnce(h, i0, i, n);
      if j == i {
        SiftDownDone(h.ends, n, i0, i);
        break;
      }
      i := j;
    }
    return i > i0;
  }

  method HeapPush(h: TimerQueue, timer: Timer)
    requires h.Valid() && h.len < h.slots.Length && timer !in h.timers
    modifies h, h.slots, h.members`index, timer`index
    ensures h.Valid() && h.members == old(h.members) + {timer}
  {
    h.Push(timer);
    Up(h, h.len - 1, h.len);
  }

  method HeapPop(h: TimerQueue) returns (timer: Timer)
    requires h.Valid() && h.len > 0
    modifies h, h.slots, h.members`index
    ensures h.Valid() && timer == old(h.timers[0]) && timer.index == -1
    ensures h.members == old(h.members) - {timer} && h.len == old(h.len) - 1
    ensures forall t :: t in old(h.members) ==> timer.end <= t.end
  {
    FirstIsDueFirst(h);
    var n := h.len - 1;
    LastTakesPlaceOf(h.ends, 0);
    h.Swap(0, n);
    var moved := Down(h, 0, n);
    if !moved && n > 0 {
      SiftUpDone(h.ends, n, 0);
    }
    timer := h.Pop();
  }

  /** Takes out the timer in slot `i`, wherever that is. */
  method HeapRemove(h: TimerQueue, i: nat) returns (timer: Timer)
    requires h.Valid() && i < h.len
    modifies h, h.slots, h.members`index
    ensures h.Valid() && timer == old(h.timers[i]) && timer.index == -1
    ensures h.members == old(h.members) - {timer} && h.len == old(h.len) - 1
  {
    var n := h.len - 1;
    if n != i {
      LastTakesPlaceOf(h.ends, i);
      h.Swap(i, n);
      var moved := Down(h, i, n);
      if !moved {
        Up(h, i, n);
      }
    }
    timer := h.Pop();
  }
}
