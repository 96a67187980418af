/** The 2Q discipline of `common/container/lru_cache.go` on plain sequences: keys seen once
    wait in a FIFO list and move to the LRU list when they are seen again. */
module TwoQueueSpec {
  import opened Basics
  import opened Seqs
  import opened LruSpec

  datatype State<K, V> = State(lru: seq<Entry<K, V>>, fifo: seq<Entry<K, V>>)

  /** The deadline of a first insertion and of a promotion by `Get`. */
  function Deadline(expiration: int, now: int): int {
    if expiration > 0 then now + expiration else 0
  }

  predicate Hits<K(==), V>(s: State<K, V>, k: K, now: int) {
    Get(s.lru, k, now).1.Some?
  }

  /** The deadline `Put2Q` stores: it differs between its three branches. */
  function PutDeadline<K(==), V>(s: State<K, V>, expiration: int, k: K, now: int): int {
    if Hits(s, k, now) then now + expiration
    else if Has(s.fifo, k) then s.fifo[Find(s.fifo, k)].expireAt + expiration
    else Deadline(expiration, now)
  }

  /** A first insertion, at the cost of the last entry when the FIFO list is full. */
  function Enqueued<K, V>(fifo: seq<Entry<K, V>>, capacity: nat, e: Entry<K, V>): seq<Entry<K, V>> {
    [e] + if |fifo| >= capacity && fifo != [] then fifo[..|fifo| - 1] else fifo
  }

  /** A put whose LRU lookup has missed. */
  function PutMissed<K(==), V>(s: State<K, V>, capacity: nat, k: K, v: V, deadline: int): State<K, V> {
    if Has(s.fifo, k) then State(Put(s.lru, capacity, k, v, deadline), Without(s.fifo, k))
    else State(s.lru, Enqueued(s.fifo, capacity, Entry(k, v, deadline)))
  }

  function Put2Q<K(==), V>(
      s: State<K, V>, capacity: nat, expiration: int, k: K, v: V, now: int): State<K, V>
  {
    var lru, deadline := Get(s.lru, k, now).0, PutDeadline(s, expiration, k, now);
    if Hits(s, k, now) then State(Put(lru, capacity, k, v, deadline), s.fifo)
    else PutMissed(State(lru, s.fifo), capacity, k, v, deadline)
  }

  function Get2Q<K(==), V>(
      s: State<K, V>, capacity: nat, expiration: int, k: K, now: int): (State<K, V>, Option<V>)
  {
    var (lru, hit) := Get(s.lru, k, now);
    var i := Find(s.fifo, k);
    if hit.Some? then (State(lru, s.fifo), hit)
    else if i == |s.fifo| then (State(lru, s.fifo), None)
    else if !Alive(s.fifo[i].expireAt, now) then (State(lru, Without(s.fifo, k)), None)
    else
      var e := s.fifo[i];
      (State(Put(lru, capacity, k, e.value, Deadline(expiration, now)), Without(s.fifo, k)), Some(e.value))
  }

  function Remove2Q<K(==), V>(s: State<K, V>, k: K): State<K, V> {
    State(Without(s.lru, k), Without(s.fifo, k))
  }

  datatype Op2Q<K, V> = Put2(key: K, value: V, now: int) | Get2(key: K, now: int) | Remove2(key: K)

  function Step2Q<K(==), V>(s: State<K, V>, capacity: nat, expiration: int, op: Op2Q<K, V>): State<K, V> {
    match op
    case Put2(k, v, now) => Put2Q(s, capacity, expiration, k, v, now)
    case Get2(k, now) => Get2Q(s, capacity, expiration, k, now).0
    case Remove2(k) => Remove2Q(s, k)
  }

  function Run2Q<K(==), V>(
      s: State<K, V>, capacity: nat, expiration: int, ops: seq<Op2Q<K, V>>): State<K, V>
  {
    if ops == [] then s
    else Step2Q(Run2Q(s, capacity, expiration, ops[..|ops| - 1]), capacity, expiration, ops[|ops| - 1])
  }

  // ---------------------------------------------------------------------------
  // Invariant: two duplicate-free lists within capacity, with no key in both
  // ---------------------------------------------------------------------------

  ghost predicate Disjoint<K(!new), V>(s: State<K, V>) {
    forall k :: Has(s.lru, k) ==> !Has(s.fifo, k)
  }

  ghost predicate Inv<K(!new), V>(s: State<K, V>, capacity: nat) {
    LruSpec.Valid(s.lru, capacity) && LruSpec.Valid(s.fifo, capacity) && Disjoint(s)
  }

  /** What the cache holds for `k`, in either list. */
  function Held<K(==), V>(s: State<K, V>, k: K): Option<Entry<K, V>> {
    if Has(s.lru, k) then Lookup(s.lru, k) else Lookup(s.fifo, k)
  }

  lemma AfterGet<K(!new), V>(lru: seq<Entry<K, V>>, capacity: nat, key: K, now: int, k: K)
    requires LruSpec.Valid(lru, capacity)
    ensures LruSpec.Valid(Get(lru, key, now).0, capacity)
    ensures Lookup(Get(lru, key, now).0, k) == if k == key && Get(lru, key, now).1.None? then None else Lookup(lru, k)
  {
    var op: Op<K, V> := OpGet(key, now);
    StepKeepsValid(lru, capacity, op);
    if k == key {
      StepOnKey(lru, capacity, op);
    } else {
      StepOnOthers(lru, capacity, op, k);
    }
  }

  /** A new entry for `key` takes the place of `k`, the last one of a full list. */
  predicate DropsLast<K(==), V>(s: seq<Entry<K, V>>, capacity: nat, key: K, k: K) {
    !Has(s, key) && |s| == capacity > 0 && s[capacity - 1].key == k
  }

  lemma AfterPut<K(!new), V>(lru: seq<Entry<K, V>>, capacity: nat, key: K, v: V, e: int, k: K)
    requires LruSpec.Valid(lru, capacity)
    ensures LruSpec.Valid(Put(lru, capacity, key, v, e), capacity)
    ensures k == key ==> Lookup(Put(lru, capacity, key, v, e), k) == Some(Entry(key, v, e))
    ensures k != key ==>
              Lookup(Put(lru, capacity, key, v, e), k) ==
              if DropsLast(lru, capacity, key, k) then None else Lookup(lru, k)
  {
    var op := OpPut(key, v, e);
    StepKeepsValid(lru, capacity, op);
    if k == key {
      StepOnKey(lru, capacity, op);
    } else {
      StepOnOthers(lru, capacity, op, k);
    }
  }

  predicate Live<K(==), V>(s: seq<Entry<K, V>>, k: K, now: int) {
    Has(s, k) && (s[Find(s, k)].expireAt <= 0 || now < s[Find(s, k)].expireAt)
  }

  /** An operation on `op.key` pushes out `k`: the last entry of a full LRU list when a key is
      promoted, the oldest one of a full FIFO list when a key comes in, and no other. */
  predicate Evicts<K(==), V>(s: State<K, V>, capacity: nat, op: Op2Q<K, V>, k: K) {
    match op
    case Put2(key, _, now) =>
      !Live(s.lru, key, now)
      && if Has(s.fifo, key) then DropsLast(s.lru, capacity, key, k) else DropsLast(s.fifo, capacity, key, k)
    case Get2(key, now) => Live(s.fifo, key, now) && DropsLast(s.lru, capacity, key, k)
    case Remove2(_) => false
  }

  /** What a step leaves for another key: what there was, in its list, unless it is pushed out. */
  ghost predicate OthersAreRight<K, V>(s: State<K, V>, s': State<K, V>, capacity: nat, op: Op2Q<K, V>, k: K) {
    && Held(s', k) == (if Evicts(s, capacity, op, k) then None else Held(s, k))
    && (Has(s'.lru, k) ==> Has(s.lru, k))
    && (Has(s'.fifo, k) ==> Has(s.fifo, k))
  }

  /** What a step leaves for its own key, and where: seen for the first time, it is first in the
      FIFO list; seen again, first in the LRU list. */
  ghost predicate OwnIsRight<K, V>(s: State<K, V>, s': State<K, V>, expiration: int, op: Op2Q<K, V>) {
    match op
    case Put2(k, v, now) =>
      if Live(s.lru, k, now) then First(s'.lru, Entry(k, v, now + expiration))
      else if Has(s.fifo, k) then First(s'.lru, Entry(k, v, s.fifo[Find(s.fifo, k)].expireAt + expiration))
      else First(s'.fifo, Entry(k, v, if expiration > 0 then now + expiration else 0))
    case Get2(k, now) =>
      if Live(s.lru, k, now) then First(s'.lru, s.lru[Find(s.lru, k)])
      else if Live(s.fifo, k, now) then
        First(s'.lru, Entry(k, s.fifo[Find(s.fifo, k)].value, if expiration > 0 then now + expiration else 0))
      else Held(s', k) == None
    case Remove2(k) => Held(s', k) == None
  }

  ghost predicate First<K, V>(s: seq<Entry<K, V>>, e: Entry<K, V>) {
    s != [] && s[0] == e
  }

  /** What a step leaves for one key. */
  ghost predicate StepIsRight<K(!new), V>(
      s: State<K, V>, s': State<K, V>, capacity: nat, expiration: int, op: Op2Q<K, V>, k: K)
  {
    && LruSpec.Valid(s'.lru, capacity) && LruSpec.Valid(s'.fifo, capacity)
    && (Has(s'.lru, k) ==> !Has(s'.fifo, k))
    && (k != op.key ==> OthersAreRight(s, s', capacity, op, k))
    && (k == op.key ==> OwnIsRight(s, s', expiration, op))
  }

  lemma PutIsRight<K(!new), V>(s: State<K, V>, capacity: nat, expiration: int, key: K, v: V, now: int, k: K)
    requires Inv(s, capacity)
    ensures StepIsRight(s, Put2Q(s, capacity, expiration, key, v, now), capacity, expiration, Put2(key, v, now), k)
  {
    OnList(s.lru, s.fifo, capacity, key, now, v, PutDeadline(s, expiration, key, now), k);
  }

  lemma GetIsRight<K(!new), V>(s: State<K, V>, capacity: nat, expiration: int, key: K, now: int, k: K)
    requires Inv(s, capacity)
    ensures StepIsRight(s, Get2Q(s, capacity, expiration, key, now).0, capacity, expiration, Get2(key, now), k)
  {
    var i := Find(s.fifo, key);
    if i < |s.fifo| {
      OnList(s.lru, s.fifo, capacity, key, now, s.fifo[i].value, Deadline(expiration, now), k);
    } else {
      AfterGet(s.lru, capacity, key, now, k);
    }
  }

  lemma StepOnLists<K(!new), V>(s: State<K, V>, capacity: nat, expiration: int, op: Op2Q<K, V>, k: K)
    requires Inv(s, capacity)
    ensures StepIsRight(s, Step2Q(s, capacity, expiration, op), capacity, expiration, op, k)
  {
    match op
    case Put2(key, v, now) => PutIsRight(s, capacity, expiration, key, v, now, k);
    case Get2(key, now) => GetIsRight(s, capacity, expiration, key, now, k);
    case Remove2(key) =>
      FindWithout(s.lru, key, k);
      FindWithout(s.fifo, key, k);
  }

  lemma OnList<K(!new), V>(
      lru: seq<Entry<K, V>>, fifo: seq<Entry<K, V>>, capacity: nat, key: K, now: int, v: V, d: int, k: K)
    requires LruSpec.Valid(lru, capacity) && LruSpec.Valid(fifo, capacity)
    ensures var lru' := Get(lru, key, now).0;
            && LruSpec.Valid(lru', capacity)
            && Lookup(lru', k) == (if k == key && Get(lru, key, now).1.None? then None else Lookup(lru, k))
            && LruSpec.Valid(Put(lru', capacity, key, v, d), capacity)
            && (k == key ==> Lookup(Put(lru', capacity, key, v, d), k) == Some(Entry(key, v, d)))
            && (k != key ==>
                  Lookup(Put(lru', capacity, key, v, d), k) ==
                  if DropsLast(lru', capacity, key, k) then None else Lookup(lru, k))
    ensures LruSpec.Valid(Without(fifo, key), capacity)
    ensures Lookup(Without(fifo, key), k) == if k == key then None else Lookup(fifo, k)
    ensures LruSpec.Valid(Put(fifo, capacity, key, v, d), capacity)
    ensures k == key ==> Lookup(Put(fifo, capacity, key, v, d), k) == Some(Entry(key, v, d))
    ensures k != key ==>
              Lookup(Put(fifo, capacity, key, v, d), k) ==
              if DropsLast(fifo, capacity, key, k) then None else Lookup(fifo, k)
  {
    AfterGet(lru, capacity, key, now, k);
    AfterPut(Get(lru, key, now).0, capacity, key, v, d, k);
    FindWithout(fifo, key, k);
    AfterPut(fifo, capacity, key, v, d, k);
  }

  /** Of two other keys that stay in a list, the one in front stays in front. */
  lemma StepKeepsOrder<K(!new), V>(
      s: State<K, V>, capacity: nat, expiration: int, op: Op2Q<K, V>, k: K, l: K)
    requires Inv(s, capacity) && k != op.key && l != op.key
    ensures var s' := Step2Q(s, capacity, expiration, op);
            && SameOrder(s.lru, s'.lru, k, l)
            && SameOrder(s.fifo, s'.fifo, k, l)
  {
    match op
    case Put2(key, v, now) => PutKeepsOrder(s, capacity, expiration, key, v, now, k, l);
    case Get2(key, now) => GetKeepsOrder(s, capacity, expiration, key, now, k, l);
    case Remove2(key) =>
      OrderAfter(s.lru, capacity, OpRemove(key), k, l);
      OrderAfter(s.fifo, capacity, OpRemove(key), k, l);
  }

  lemma PutKeepsOrder<K(!new), V>(
      s: State<K, V>, capacity: nat, expiration: int, key: K, v: V, now: int, k: K, l: K)
    requires Inv(s, capacity) && k != key && l != key
    ensures SameOrder(s.lru, Put2Q(s, capacity, expiration, key, v, now).lru, k, l)
    ensures SameOrder(s.fifo, Put2Q(s, capacity, expiration, key, v, now).fifo, k, l)
  {
    OrderAfterGet(s.lru, capacity, key, now, v, PutDeadline(s, expiration, key, now), k, l);
    OrderAfter(s.fifo, capacity, OpPut(key, v, PutDeadline(s, expiration, key, now)), k, l);
    OrderAfter(s.fifo, capacity, OpRemove(key), k, l);
  }

  lemma GetKeepsOrder<K(!new), V>(s: State<K, V>, capacity: nat, expiration: int, key: K, now: int, k: K, l: K)
    requires Inv(s, capacity) && k != key && l != key
    ensures SameOrder(s.lru, Get2Q(s, capacity, expiration, key, now).0.lru, k, l)
    ensures SameOrder(s.fifo, Get2Q(s, capacity, expiration, key, now).0.fifo, k, l)
  {
    var i, s' := Find(s.fifo, key), Get2Q(s, capacity, expiration, key, now).0;
    OrderAfter(s.fifo, capacity, OpRemove(key), k, l);
    assert s'.fifo == s.fifo || s'.fifo == Without(s.fifo, key);
    if i < |s.fifo| {
      var v, deadline := s.fifo[i].value, Deadline(expiration, now);
      OrderAfterGet(s.lru, capacity, key, now, v, deadline, k, l);
      var lru := Get(s.lru, key, now).0;
      assert s'.lru == lru || s'.lru == Put(lru, capacity, key, v, deadline);
    } else {
      OrderAfter(s.lru, capacity, OpGet(key, now), k, l);
    }
  }

  predicate SameOrder<K(==), V>(s: seq<Entry<K, V>>, s': seq<Entry<K, V>>, k: K, l: K) {
    Has(s', k) && Has(s', l) ==> (Find(s', k) < Find(s', l) <==> Find(s, k) < Find(s, l))
  }

  lemma OrderAfterGet<K(!new), V>(
      lru: seq<Entry<K, V>>, capacity: nat, key: K, now: int, v: V, deadline: int, k: K, l: K)
    requires LruSpec.Valid(lru, capacity) && k != key && l != key
    ensures SameOrder(lru, Get(lru, key, now).0, k, l)
    ensures SameOrder(lru, Put(Get(lru, key, now).0, capacity, key, v, deadline), k, l)
  {
    AfterGet(lru, capacity, key, now, k);
    OrderAfter(lru, capacity, OpGet(key, now), k, l);
    OrderAfter(Get(lru, key, now).0, capacity, OpPut(key, v, deadline), k, l);
  }

  lemma OrderAfter<K(!new), V>(s: seq<Entry<K, V>>, capacity: nat, op: Op<K, V>, k: K, l: K)
    requires LruSpec.Valid(s, capacity) && k != op.key && l != op.key
    ensures SameOrder(s, Step(s, capacity, op), k, l)
    ensures Has(Step(s, capacity, op), k) ==> Has(s, k)
    ensures Has(Step(s, capacity, op), l) ==> Has(s, l)
  {
    var s' := Step(s, capacity, op);
    if Has(s', k) {
      FindAfterStep(s, capacity, op, k);
    }
    if Has(s', l) {
      FindAfterStep(s, capacity, op, l);
    }
  }

  lemma StepKeepsInv<K(!new), V>(s: State<K, V>, capacity: nat, expiration: int, op: Op2Q<K, V>)
    requires Inv(s, capacity)
    ensures Inv(Step2Q(s, capacity, expiration, op), capacity)
  {
    StepOnLists(s, capacity, expiration, op, op.key);
    forall k | Has(Step2Q(s, capacity, expiration, op).lru, k)
      ensures !Has(Step2Q(s, capacity, expiration, op).fifo, k)
    {
      StepOnLists(s, capacity, expiration, op, k);
    }
  }

  lemma {:induction false} RunKeepsInv<K(!new), V>(
      s: State<K, V>, capacity: nat, expiration: int, ops: seq<Op2Q<K, V>>)
    requires Inv(s, capacity)
    ensures Inv(Run2Q(s, capacity, expiration, ops), capacity)
  {
    if ops == [] {
    } else {
      RunKeepsInv(s, capacity, expiration, ops[..|ops| - 1]);
      StepKeepsInv(Run2Q(s, capacity, expiration, ops[..|ops| - 1]), capacity, expiration, ops[|ops| - 1]);
    }
  }

  // ---------------------------------------------------------------------------
  // Last write wins
  // ---------------------------------------------------------------------------

  /** The value last put for `k`, unless it was never put or has been removed since. */
  function LastPut<K(==), V>(ops: seq<Op2Q<K, V>>, k: K): Option<V> {
    if ops == [] then None
    else
      var op := ops[|ops| - 1];
      if op.key != k || op.Get2? then LastPut(ops[..|ops| - 1], k)
      else if op.Put2? then Some(op.value)
      else None
  }

  lemma {:induction false} HoldsLastPut<K(!new), V>(
      capacity: nat, expiration: int, ops: seq<Op2Q<K, V>>, k: K)
    requires capacity > 0
    ensures Inv(Run2Q(State([], []), capacity, expiration, ops), capacity)
    ensures var held := Held(Run2Q(State([], []), capacity, expiration, ops), k);
            held.Some? ==> Some(held.value.value) == LastPut(ops, k)
  {
    RunKeepsInv(State([], []), capacity, expiration, ops);
    if ops == [] {
    } else {
      var init, op := ops[..|ops| - 1], ops[|ops| - 1];
      HoldsLastPut(capacity, expiration, init, k);
      StepOnLists(Run2Q(State([], []), capacity, expiration, init), capacity, expiration, op, k);
    }
  }

  /** A lookup hits exactly when the key is held and its stored deadline has not passed, and
      then answers the held value. */
  lemma GetAnswersHeld<K(!new), V>(s: State<K, V>, capacity: nat, expiration: int, k: K, now: int)
    requires Inv(s, capacity)
    ensures Get2Q(s, capacity, expiration, k, now).1 ==
              if Held(s, k).Some? && Alive(Held(s, k).value.expireAt, now) then Some(Held(s, k).value.value)
              else None
  {
  }

  /** Over every run, a hit answers the value last put, under a deadline not yet passed. */
  lemma HitAnswersLastPut<K(!new), V>(
      capacity: nat, expiration: int, ops: seq<Op2Q<K, V>>, k: K, now: int)
    requires capacity > 0
    requires Get2Q(Run2Q(State([], []), capacity, expiration, ops), capacity, expiration, k, now).1.Some?
    ensures Get2Q(Run2Q(State([], []), capacity, expiration, ops), capacity, expiration, k, now).1 == LastPut(ops, k)
    ensures var held := Held(Run2Q(State([], []), capacity, expiration, ops), k);
            held.Some? && Alive(held.value.expireAt, now)
  {
    HoldsLastPut(capacity, expiration, ops, k);
    GetAnswersHeld(Run2Q(State([], []), capacity, expiration, ops), capacity, expiration, k, now);
  }

  // ---------------------------------------------------------------------------
  // Does a put last until the next lookup?
  // ---------------------------------------------------------------------------

  /** The next lookup finds the value exactly while the deadline of the branch taken lasts: the
      time of the put and the expiration for a key live in the LRU list, the old deadline and the
      expiration for one in the FIFO list, and no deadline for a new key without an expiration. */
  lemma PutThenGet<K(!new), V>(
      s: State<K, V>, capacity: nat, expiration: int, k: K, v: V, putAt: int, getAt: int)
    requires Inv(s, capacity)
    ensures Get2Q(Put2Q(s, capacity, expiration, k, v, putAt), capacity, expiration, k, getAt).1 ==
              var deadline :=
                if Live(s.lru, k, putAt) then putAt + expiration
                else if Has(s.fifo, k) then s.fifo[Find(s.fifo, k)].expireAt + expiration
                else if expiration > 0 then putAt + expiration
                else 0;
              if deadline <= 0 || getAt < deadline then Some(v) else None
  {
    var op := Put2(k, v, putAt);
    StepOnLists(s, capacity, expiration, op, k);
    StepKeepsInv(s, capacity, expiration, op);
    GetAnswersHeld(Step2Q(s, capacity, expiration, op), capacity, expiration, k, getAt);
  }

  predicate Timeless<K, V>(fifo: seq<Entry<K, V>>) {
    forall i :: 0 <= i < |fifo| ==> fifo[i].expireAt <= 0
  }

  lemma WithoutIsTimeless<K, V>(fifo: seq<Entry<K, V>>, k: K)
    requires Timeless(fifo)
    ensures Timeless(Without(fifo, k))
  {
  }

  lemma StepIsTimeless<K(!new), V>(s: State<K, V>, capacity: nat, expiration: int, op: Op2Q<K, V>)
    requires expiration <= 0 && Timeless(s.fifo)
    ensures Timeless(Step2Q(s, capacity, expiration, op).fifo)
  {
    WithoutIsTimeless(s.fifo, op.key);
  }

  /** With no positive expiration nothing in the FIFO list ever carries a deadline. */
  lemma {:induction false} FifoNeverExpires<K(!new), V>(capacity: nat, expiration: int, ops: seq<Op2Q<K, V>>)
    requires capacity > 0 && expiration <= 0
    ensures Timeless(Run2Q(State([], []), capacity, expiration, ops).fifo)
  {
    if ops == [] {
    } else {
      var rest, last := ops[..|ops| - 1], ops[|ops| - 1];
      FifoNeverExpires(capacity, expiration, rest);
      StepIsTimeless(Run2Q(State([], []), capacity, expiration, rest), capacity, expiration, last);
    }
  }

  /** Without a positive expiration, "never expires", a put can still be lost: whenever the next
      lookup comes, it finds the value unless the key was live in the LRU list at the time of the
      put and that time, with the expiration added, counts as a deadline. */
  lemma PutLastsWithoutExpiration<K(!new), V>(
      capacity: nat, expiration: int, ops: seq<Op2Q<K, V>>, k: K, v: V, putAt: int, getAt: int)
    requires capacity > 0 && expiration <= 0 && putAt <= getAt
    ensures var s := Run2Q(State([], []), capacity, expiration, ops);
            Get2Q(Put2Q(s, capacity, expiration, k, v, putAt), capacity, expiration, k, getAt).1 ==
              if Hits(s, k, putAt) && putAt + expiration > 0 then None else Some(v)
  {
    var s := Run2Q(State([], []), capacity, expiration, ops);
    RunKeepsInv(State([], []), capacity, expiration, ops);
    FifoNeverExpires(capacity, expiration, ops);
    PutThenGet(s, capacity, expiration, k, v, putAt, getAt);
  }

  /** Three operations that lose a value which was meant never to expire. */
  lemma PutLostWithoutExpiration(now: int)
    requires now > 0
    ensures var ops := [Put2(7, 'a', now), Get2(7, now)];
            Get2Q(Put2Q(Run2Q(State([], []), 2, 0, ops), 2, 0, 7, 'b', now), 2, 0, 7, now).1 == None
  {
    var e, ops := Entry(7, 'a', 0), [Put2(7, 'a', now), Get2(7, now)];
    assert ops[..1] == [Put2(7, 'a', now)] && ops[..1][..0] == [];
    assert Run2Q(State([], []), 2, 0, ops[..1]) == State([], [e]);
    assert Without([e], 7) == [];
    assert Run2Q(State([], []), 2, 0, ops) == State([e], []);
    PutLastsWithoutExpiration(2, 0, ops, 7, 'b', now, now);
  }

  /** Whether the value is found by a lookup `getAt` that follows the put. */
  predicate FoundAt<K(==), V(==)>(
      s: State<K, V>, capacity: nat, expiration: int, k: K, v: V, putAt: int, getAt: int)
  {
    Get2Q(Put2Q(s, capacity, expiration, k, v, putAt), capacity, expiration, k, getAt).1 == Some(v)
  }

  /** The put promotes a FIFO entry whose own deadline has passed, so that the deadline stored runs
      out before the put's time does. */
  predicate PromotesLate<K(==), V>(s: State<K, V>, expiration: int, k: K, putAt: int) {
    !Hits(s, k, putAt) && Has(s.fifo, k)
    && var d := s.fifo[Find(s.fifo, k)].expireAt; d < putAt && d + expiration > 0
  }

  /** With a positive expiration a put is found throughout the time it was given if and only if it
      does not promote a FIFO entry too late. */
  lemma PutLastsWithExpiration<K(!new), V>(
      s: State<K, V>, capacity: nat, expiration: int, k: K, v: V, putAt: int)
    requires Inv(s, capacity) && expiration > 0
    ensures (forall getAt :: putAt <= getAt < putAt + expiration ==> FoundAt(s, capacity, expiration, k, v, putAt, getAt))
            <==> !PromotesLate(s, expiration, k, putAt)
  {
    forall getAt | putAt <= getAt < putAt + expiration
      ensures FoundAt(s, capacity, expiration, k, v, putAt, getAt) <==>
              Alive(PutDeadline(s, expiration, k, putAt), getAt)
    {
      PutThenGet(s, capacity, expiration, k, v, putAt, getAt);
    }
    if PromotesLate(s, expiration, k, putAt) {
      assert !FoundAt(s, capacity, expiration, k, v, putAt, putAt + expiration - 1);
    }
  }

  /** A value put for 10 units at time 100 is gone at once: the key was first put at time 1. */
  lemma PutLostWithExpiration()
    ensures var s := Run2Q(State([], []), 2, 10, [Put2(7, 'a', 1)]);
            !FoundAt(s, 2, 10, 7, 'b', 100, 100) && PromotesLate(s, 10, 7, 100)
  {
    var ops := [Put2(7, 'a', 1)];
    assert ops[..0] == [];
    var s := Run2Q(State([], []), 2, 10, ops);
    assert s == State([], [Entry(7, 'a', 11)]);
    RunKeepsInv(State([], []), 2, 10, ops);
    PutThenGet(s, 2, 10, 7, 'b', 100, 100);
  }

  // ---------------------------------------------------------------------------
  // Scan resistance
  // ---------------------------------------------------------------------------

  /** A scan: puts of pairwise distinct keys the cache does not hold. */
  ghost predicate Scan<K(!new), V>(s: State<K, V>, ops: seq<Op2Q<K, V>>) {
    && (forall i :: 0 <= i < |ops| ==> ops[i].Put2? && !Has(s.lru, ops[i].key) && !Has(s.fifo, ops[i].key))
    && (forall i, j :: 0 <= i < j < |ops| ==> ops[i].key != ops[j].key)
  }

  /** A scan of any length leaves the LRU list as it was. */
  lemma {:induction false} ScanSparesLru<K(!new), V>(
      s: State<K, V>, capacity: nat, expiration: int, ops: seq<Op2Q<K, V>>)
    requires Inv(s, capacity) && Scan(s, ops)
    ensures Run2Q(s, capacity, expiration, ops).lru == s.lru
    ensures forall k :: Has(Run2Q(s, capacity, expiration, ops).fifo, k) ==>
              Has(s.fifo, k) || exists i :: 0 <= i < |ops| && ops[i].key == k
  {
    if ops == [] {
    } else {
      var init, op := ops[..|ops| - 1], ops[|ops| - 1];
      var mid, end := Run2Q(s, capacity, expiration, init), Run2Q(s, capacity, expiration, ops);
      ScanSparesLru(s, capacity, expiration, init);
      RunKeepsInv(s, capacity, expiration, init);
      assert !Has(mid.fifo, op.key);
      forall k | Has(end.fifo, k) && k != op.key
        ensures Has(mid.fifo, k)
      {
        AfterPut(mid.fifo, capacity, op.key, op.value, PutDeadline(mid, expiration, op.key, op.now), k);
      }
      assert ops[|ops| - 1].key == op.key;
    }
  }

  /** The entries of a scan, newest first. */
  function Newest<K, V>(ops: seq<Op2Q<K, V>>, expiration: int): seq<Entry<K, V>> {
    if ops == [] then []
    else
      var op, older := ops[|ops| - 1], Newest(ops[..|ops| - 1], expiration);
      if op.Put2? then [ScanEntry(op, expiration)] + older else older
  }

  function ScanEntry<K, V>(op: Op2Q<K, V>, expiration: int): Entry<K, V>
    requires op.Put2?
  {
    Entry(op.key, op.value, if expiration > 0 then op.now + expiration else 0)
  }

  function UpTo<T>(s: seq<T>, n: nat): seq<T> {
    if |s| <= n then s else s[..n]
  }

  lemma EnqueuedInFront<K, V>(
      kept: seq<Entry<K, V>>, older: seq<Entry<K, V>>, newer: seq<Entry<K, V>>, rest: seq<Entry<K, V>>,
      capacity: nat, e: Entry<K, V>)
    requires capacity > 0 && kept == UpTo(older + rest, capacity) && newer == [e] + older
    ensures Enqueued(kept, capacity, e) == UpTo(newer + rest, capacity)
  {
    assert newer + rest == [e] + (older + rest);
  }

  lemma ScanMisses<K(!new), V>(s: State<K, V>, capacity: nat, expiration: int, op: Op2Q<K, V>)
    requires op.Put2? && !Has(s.lru, op.key) && !Has(s.fifo, op.key)
    ensures Step2Q(s, capacity, expiration, op).fifo == Enqueued(s.fifo, capacity, ScanEntry(op, expiration))
  {
  }

  /** A scan goes through the FIFO list: what the list holds is its newest puts and then what was
      there, as far as there is room, and the oldest ones are gone. */
  lemma {:induction false} ScanFillsFifo<K(!new), V>(
      s: State<K, V>, capacity: nat, expiration: int, ops: seq<Op2Q<K, V>>)
    requires Inv(s, capacity) && Scan(s, ops)
    ensures Run2Q(s, capacity, expiration, ops).fifo == UpTo(Newest(ops, expiration) + s.fifo, capacity)
  {
    if ops == [] {
      assert Newest(ops, expiration) + s.fifo == s.fifo;
    } else {
      var init, op := ops[..|ops| - 1], ops[|ops| - 1];
      var mid, e := Run2Q(s, capacity, expiration, init), ScanEntry(op, expiration);
      ScanFillsFifo(s, capacity, expiration, init);
      ScanSparesLru(s, capacity, expiration, init);
      assert !Has(mid.fifo, op.key) && !Has(mid.lru, op.key);
      ScanMisses(mid, capacity, expiration, op);
      EnqueuedInFront(mid.fifo, Newest(init, expiration), Newest(ops, expiration), s.fifo, capacity, e);
    }
  }

  lemma {:induction false} NewestIsLong<K(!new), V>(s: State<K, V>, ops: seq<Op2Q<K, V>>, expiration: int)
    requires Scan(s, ops)
    ensures |Newest(ops, expiration)| == |ops|
  {
    if ops != [] {
      NewestIsLong(s, ops[..|ops| - 1], expiration);
    }
  }

  /** So an entry of the FIFO list lasts through a scan exactly while it is among the newest
      `capacity`, and is pushed out then. */
  lemma FifoKeepsTheNewest<K(!new), V>(
      s: State<K, V>, capacity: nat, expiration: int, ops: seq<Op2Q<K, V>>, i: nat)
    requires Inv(s, capacity) && Scan(s, ops) && i < |s.fifo|
    ensures Held(Run2Q(s, capacity, expiration, ops), s.fifo[i].key) ==
            if i + |ops| < capacity then Some(s.fifo[i]) else None
  {
    var end, e := Run2Q(s, capacity, expiration, ops), s.fifo[i];
    ScanFillsFifo(s, capacity, expiration, ops);
    ScanSparesLru(s, capacity, expiration, ops);
    RunKeepsInv(s, capacity, expiration, ops);
    NewestIsLong(s, ops, expiration);
    FindIs(s.fifo, e.key, i);
    assert !Has(s.lru, e.key);
    var all := Newest(ops, expiration) + s.fifo;
    assert all[|ops| + i] == e;
    if i + |ops| < capacity {
      assert end.fifo[|ops| + i] == e;
      FindIs(end.fifo, e.key, |ops| + i);
    } else {
      KeysOfScan(s, ops, expiration);
      forall j | 0 <= j < |end.fifo|
        ensures end.fifo[j].key != e.key
      {
        assert end.fifo[j] == all[j];
      }
    }
  }

  lemma {:induction false} KeysOfScan<K(!new), V>(s: State<K, V>, ops: seq<Op2Q<K, V>>, expiration: int)
    requires Scan(s, ops)
    ensures forall j :: 0 <= j < |Newest(ops, expiration)| ==> !Has(s.fifo, Newest(ops, expiration)[j].key)
  {
    if ops != [] {
      KeysOfScan(s, ops[..|ops| - 1], expiration);
    }
  }

  /** A key that is looked up once more outlasts every scan, as long as its deadline does. */
  lemma SeenAgainSurvivesScan<K(!new), V>(
      s: State<K, V>, capacity: nat, expiration: int, k: K, seenAt: int, ops: seq<Op2Q<K, V>>, getAt: int)
    requires Inv(s, capacity) && Get2Q(s, capacity, expiration, k, seenAt).1.Some?
    requires Scan(Get2Q(s, capacity, expiration, k, seenAt).0, ops)
    requires !Has(s.lru, k) && (expiration > 0 ==> getAt < seenAt + expiration)
    ensures var again := Get2Q(s, capacity, expiration, k, seenAt);
            Get2Q(Run2Q(again.0, capacity, expiration, ops), capacity, expiration, k, getAt).1 == again.1
  {
    var s' := Get2Q(s, capacity, expiration, k, seenAt).0;
    StepOnLists(s, capacity, expiration, Get2(k, seenAt), k);
    StepKeepsInv(s, capacity, expiration, Get2(k, seenAt));
    ScanSparesLru(s', capacity, expiration, ops);
  }
}
