/** The resizable FIFO of `common/container/queue.go`: a sliding window over a buffer
    that is compacted, grown and shrunk as elements come and go. */
module Queues {

  const INIT_CAPACITY := 8

  // ---------------------------------------------------------------------------
  // The window over the buffer, apart from the elements in it
  // ---------------------------------------------------------------------------

  /** Where the live elements lie: slots `begin..end` of `capacity` slots. */
  datatype Window = Window(begin: nat, end: nat, capacity: nat) {
    function Size(): int { end - begin }

    ghost predicate Valid() {
      && begin <= end <= capacity
      && INIT_CAPACITY <= capacity
      // a large buffer is never both half drained (begin >= capacity / 2) and at most a
      // quarter full (Size() <= capacity / 4)
      && (2 * begin + 2 > capacity > INIT_CAPACITY ==> 4 * Size() > capacity)
    }
  }

  datatype Op = Push | Pop | Clear

  const EMPTY := Window(0, 0, INIT_CAPACITY)

  function GrownCapacity(capacity: nat): nat {
    if capacity >= 1024 then capacity / 4 + capacity else capacity * 2
  }

  function Expended(w: Window): Window
    requires w.begin <= w.end
  {
    if w.begin > 0 then Window(0, w.end - w.begin, w.capacity)
    else Window(0, w.end, GrownCapacity(w.capacity))
  }

  predicate Shrinks(w: Window) {
    w.Size() <= w.capacity / 4 && w.capacity > INIT_CAPACITY
  }

  function Shrunk(w: Window): Window
    requires w.begin <= w.end
  {
    if Shrinks(w) then
      Window(0, w.end - w.begin, if w.capacity / 2 < INIT_CAPACITY then INIT_CAPACITY else w.capacity / 2)
    else w
  }

  function Popped(w: Window): Window
    requires w.begin < w.end
  {
    var w' := w.(begin := w.begin + 1);
    if w'.begin >= w'.capacity / 2 then Shrunk(w') else w'
  }

  function Step(w: Window, op: Op): (w': Window)
    requires w.Valid()
    ensures w'.Valid()
    ensures op.Push? ==> w'.Size() == w.Size() + 1
    ensures op.Pop? ==> w'.Size() == if w.Size() == 0 then 0 else w.Size() - 1
  {
    match op
    case Push =>
      var room := if w.end >= w.capacity then Expended(w) else w;
      room.(end := room.end + 1)
    case Pop => if w.Size() <= 0 then w else Popped(w)
    case Clear => EMPTY
  }

  /** Elements moved into a newly allocated buffer by one operation; the compaction
      inside the same buffer is not counted. */
  function Copied(w: Window, op: Op): nat
    requires w.Valid()
  {
    match op
    case Push => if w.end >= w.capacity && w.begin == 0 then w.Size() else 0
    case Pop =>
      if w.Size() <= 0 then 0
      else
        var w' := w.(begin := w.begin + 1);
        if w'.begin >= w'.capacity / 2 && Shrinks(w') then w'.Size() else 0
    case Clear => 0
  }

  // ---------------------------------------------------------------------------
  // Whole runs
  // ---------------------------------------------------------------------------

  function Run(ops: seq<Op>): (w: Window)
    ensures w.Valid()
  {
    if ops == [] then EMPTY else Step(Run(ops[..|ops| - 1]), ops[|ops| - 1])
  }

  function TotalCopied(ops: seq<Op>): nat {
    if ops == [] then 0
    else TotalCopied(ops[..|ops| - 1]) + Copied(Run(ops[..|ops| - 1]), ops[|ops| - 1])
  }

  function Count(ops: seq<Op>, op: Op): nat {
    if ops == [] then 0
    else Count(ops[..|ops| - 1], op) + if ops[|ops| - 1] == op then 1 else 0
  }

  /** The largest number of elements held at once since the last `Clear`. */
  function Peak(ops: seq<Op>): nat {
    if ops == [] || ops[|ops| - 1] == Clear then 0
    else
      var before, size := Peak(ops[..|ops| - 1]), Run(ops).Size();
      if before < size then size else before
  }

  /** Copies still owed: full buffers and half-drained ones are the expensive ones. */
  ghost function Debt(w: Window): (d: int)
    ensures d >= 0
  {
    w.begin + if 6 * w.Size() > 5 * w.capacity then 6 * w.Size() - 5 * w.capacity else 0
  }

  lemma StepPaysForCopies(w: Window, op: Op)
    requires w.Valid()
    ensures Copied(w, op) + Debt(Step(w, op)) - Debt(w)
         <= 6 * (if op == Push then 1 else 0) + if op == Pop then 1 else 0
  {
    match op
    case Push => PushPaysForCopies(w);
    case Pop => PopPaysForCopies(w);
    case Clear => ClearPaysForCopies(w);
  }

  lemma ClearPaysForCopies(w: Window)
    requires w.Valid()
    ensures Copied(w, Clear) + Debt(Step(w, Clear)) - Debt(w) <= 0
  {
  }

  lemma GrowthClearsDebt(capacity: nat)
    requires capacity >= INIT_CAPACITY
    ensures 6 * (capacity + 1) <= 5 * GrownCapacity(capacity)
  {
    var quarter := capacity / 4;
    assert capacity - 3 <= 4 * quarter;
  }

  lemma PushPaysForCopies(w: Window)
    requires w.Valid()
    ensures Copied(w, Push) + Debt(Step(w, Push)) - Debt(w) <= 6
  {
    var w' := Step(w, Push);
    if w.end >= w.capacity && w.begin == 0 {
      GrowthClearsDebt(w.capacity);
      assert w' == Window(0, w.capacity + 1, GrownCapacity(w.capacity));
      assert Debt(w') == 0;
    } else {
      assert w'.capacity == w.capacity && w'.begin <= w.begin;
    }
  }

  lemma PopPaysForCopies(w: Window)
    requires w.Valid()
    ensures Copied(w, Pop) + Debt(Step(w, Pop)) - Debt(w) <= 1
  {
    var w' := w.(begin := w.begin + 1);
    if w.Size() > 0 && w'.begin >= w'.capacity / 2 && Shrinks(w') {
      assert w'.Size() <= w'.begin;
      assert Debt(Shrunk(w')) == 0;
    }
  }

  /** Growth and shrinking together copy at most six elements per push and one per pop. */
  lemma {:induction false} CopiesAreAmortized(ops: seq<Op>)
    ensures TotalCopied(ops) + Debt(Run(ops)) <= 6 * Count(ops, Push) + Count(ops, Pop)
  {
    if ops == [] {
      assert Run(ops) == EMPTY;
    } else {
      var init, op := ops[..|ops| - 1], ops[|ops| - 1];
      CopiesAreAmortized(init);
      StepPaysForCopies(Run(init), op);
    }
  }

  /** When the buffer is replaced, and by what size: a push onto a full one doubles it, or adds a
      quarter from 1024 slots on; a pop that leaves at most a quarter of the slots in use, at the
      end of the first half or behind it, halves it, to no less than 8 slots. */
  lemma BufferIsReplacedOnlyThen(w: Window, op: Op)
    requires w.Valid()
    ensures match op
            case Push =>
              Step(w, op).capacity ==
              if w.begin == 0 && w.end == w.capacity
              then (if w.capacity < 1024 then 2 * w.capacity else w.capacity + w.capacity / 4)
              else w.capacity
            case Pop =>
              Step(w, op).capacity ==
              if w.begin < w.end && w.begin + 1 >= w.capacity / 2 && w.end - w.begin - 1 <= w.capacity / 4 && w.capacity > 8
              then (if w.capacity < 16 then 8 else w.capacity / 2)
              else w.capacity
            case Clear => Step(w, op) == Window(0, 0, 8)
    ensures op == Push && w.end < w.capacity ==> Step(w, op).begin == w.begin
    ensures op == Pop && Step(w, op).capacity == w.capacity && w.begin < w.end ==> Step(w, op).begin == w.begin + 1
  {
  }

  /** The buffer never exceeds twice what was needed at once since the last `Clear`. */
  lemma {:induction false} CapacityFollowsPeak(ops: seq<Op>)
    ensures Run(ops).Size() <= Peak(ops)
    ensures INIT_CAPACITY <= Run(ops).capacity
    ensures Run(ops).capacity <= INIT_CAPACITY || Run(ops).capacity <= 2 * Peak(ops)
  {
    if ops == [] || ops[|ops| - 1] == Clear {
    } else {
      CapacityFollowsPeak(ops[..|ops| - 1]);
    }
  }

  // ---------------------------------------------------------------------------
  // The queue itself
  // ---------------------------------------------------------------------------

  class Queue<T> {
    const zero: T
    var data: array<T>
    var begin: nat
    var end: nat
    var capacity: nat
    ghost var contents: seq<T>  // the queued elements, oldest first

    ghost predicate Valid()
      reads this, data
    {
      Shape().Valid() && data.Length == capacity && Holds()
    }

    ghost predicate Holds()
      reads this, data
    {
      && begin <= end <= data.Length && |contents| == end - begin
      && forall i :: 0 <= i < |contents| ==> data[begin + i] == contents[i]
    }

    ghost function Shape(): Window
      reads this
    {
      Window(begin, end, capacity)
    }

    constructor (zero: T)
      ensures Valid() && fresh(data) && this.zero == zero
      ensures contents == [] && Shape() == EMPTY
    {
      this.zero := zero;
      data := new T[INIT_CAPACITY](_ => zero);
      capacity := INIT_CAPACITY;
      begin, end := 0, 0;
      contents := [];
    }

    function Empty(): (r: bool)
      reads this, data
      requires Valid()
      ensures r <==> contents == []
    {
      Size() <= 0
    }

    function Size(): (n: int)
      reads this, data
      requires Valid()
      ensures n == |contents|
    {
      end - begin
    }

    method Clear()
      requires Valid()
      modifies this
      ensures Valid() && fresh(data)
      ensures contents == [] && Shape() == Step(old(Shape()), Op.Clear)
    {
      begin, end := 0, 0;
      contents := [];
      data := new T[INIT_CAPACITY](_ => zero);
      capacity := INIT_CAPACITY;
    }

    method Value() returns (values: seq<T>)
      requires Valid()
      ensures values == contents
    {
      values := [];
      for i := begin to end
        invariant values == contents[..i - begin]
      {
        assert data[i] == contents[i - begin];
        values := values + [data[i]];
      }
    }

    method Push(val: T)
      requires Valid()
      modifies this, data
      ensures Valid() && (data == old(data) || fresh(data))
      ensures contents == old(contents) + [val]
      ensures Shape() == Step(old(Shape()), Op.Push)
    {
      if end >= capacity {
        Expend();
      }
      data[end] := val;
      end := end + 1;
      contents := contents + [val];
    }

    /** Dequeues the oldest element; on an empty queue answers `zero` and changes nothing. */
    method Pop() returns (val: T)
      requires Valid()
      modifies this, data
      ensures Valid() && (data == old(data) || fresh(data))
      ensures Shape() == Step(old(Shape()), Op.Pop)
      ensures old(contents) == [] ==> val == zero && contents == []
      ensures old(contents) != [] ==> old(contents) == [val] + contents
    {
      if Empty() {
        return zero;
      }
      val := data[begin];
      assert val == contents[0];
      data[begin] := zero;
      begin := begin + 1;
      contents := contents[1..];
      if begin >= capacity / 2 {
        Shrink();
      }
    }

    method Expend()
      requires Valid() && end >= capacity
      modifies this, data
      ensures Shape() == Expended(old(Shape())) && Valid() && end < capacity
      ensures data == old(data) || fresh(data)
      ensures contents == old(contents)
    {
      if begin > 0 {
        var length := Size();
        forall i | 0 <= i < length {
          data[i] := data[begin + i];
        }
        begin := 0;
        end := length;
        return;
      }
      var newCapacity := capacity * 2;
      if capacity >= 1024 {
        newCapacity := capacity / 4 + capacity;
      }
      var newData := new T[newCapacity](_ => zero);
      forall i | 0 <= i < end - begin {
        newData[i] := data[begin + i];
      }
      end := end - begin;
      begin := 0;
      data := newData;
      capacity := newCapacity;
    }

    method Shrink()
      requires begin <= end <= capacity == data.Length && INIT_CAPACITY <= capacity
      requires Holds()
      modifies this`data, this`begin, this`end, this`capacity
      ensures Shape() == Shrunk(old(Shape())) && data.Length == capacity
      ensures (data == old(data) || fresh(data)) && Holds()
    {
      var length := end - begin;
      if length <= capacity / 4 && capacity > INIT_CAPACITY {
        var newCapacity := capacity / 2;
        if newCapacity < INIT_CAPACITY {
          newCapacity := INIT_CAPACITY;
        }
        var newData := new T[newCapacity](_ => zero);
        forall i | 0 <= i < length {
          newData[i] := data[begin + i];
        }
        begin := 0;
        end := length;
        data := newData;
        capacity := newCapacity;
      }
    }
  }
}
