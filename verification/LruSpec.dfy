/** The LRU discipline of `common/container/lru_cache.go` on plain sequences, most recently
    used entry first, and what it guarantees over whole runs. */
module LruSpec {
  import opened Basics
  import opened Seqs

  datatype Entry<K, V> = Entry(key: K, value: V, expireAt: int)

  /** A deadline of 0 or less never passes. */
  predicate Alive(expireAt: int, now: int) {
    expireAt <= 0 || now < expireAt
  }

  /** The position of `k`, or the length of `s` when it is absent. */
  function Find<K(==), V>(s: seq<Entry<K, V>>, k: K): (i: nat)
    ensures i <= |s| && (i < |s| ==> s[i].key == k)
    ensures forall j :: 0 <= j < i ==> s[j].key != k
  {
    if s == [] || s[0].key == k then 0 else 1 + Find(s[1..], k)
  }

  predicate Has<K(==), V>(s: seq<Entry<K, V>>, k: K) {
    Find(s, k) < |s|
  }

  function Lookup<K(==), V>(s: seq<Entry<K, V>>, k: K): Option<Entry<K, V>> {
    if Has(s, k) then Some(s[Find(s, k)]) else None
  }

  function Without<K(==), V>(s: seq<Entry<K, V>>, k: K): seq<Entry<K, V>> {
    var i := Find(s, k);
    if i < |s| then Cut(s, i) else s
  }

  function Put<K(==), V>(s: seq<Entry<K, V>>, capacity: nat, k: K, v: V, expireAt: int): seq<Entry<K, V>> {
    [Entry(k, v, expireAt)] +
    if Has(s, k) then Without(s, k)
    else if |s| >= capacity && s != [] then s[..|s| - 1]
    else s
  }

  function Get<K(==), V>(s: seq<Entry<K, V>>, k: K, now: int): (seq<Entry<K, V>>, Option<V>) {
    var i := Find(s, k);
    if i == |s| then (s, None)
    else if Alive(s[i].expireAt, now) then ([s[i]] + Without(s, k), Some(s[i].value))
    else (Without(s, k), None)
  }

  ghost predicate Distinct<K, V>(s: seq<Entry<K, V>>) {
    forall i, j :: 0 <= i < j < |s| ==> s[i].key != s[j].key
  }

  ghost predicate Valid<K, V>(s: seq<Entry<K, V>>, capacity: nat) {
    Distinct(s) && |s| <= capacity && capacity > 0
  }

  lemma FindIs<K, V>(s: seq<Entry<K, V>>, k: K, i: nat)
    requires Distinct(s) && i < |s| && s[i].key == k
    ensures Find(s, k) == i
  {
  }

  // ---------------------------------------------------------------------------
  // Runs
  // ---------------------------------------------------------------------------

  datatype Op<K, V> =
    | OpPut(key: K, value: V, expireAt: int)
    | OpGet(key: K, now: int)
    | OpRemove(key: K)

  function Step<K(==), V>(s: seq<Entry<K, V>>, capacity: nat, op: Op<K, V>): seq<Entry<K, V>> {
    match op
    case OpPut(k, v, e) => Put(s, capacity, k, v, e)
    case OpGet(k, now) => Get(s, k, now).0
    case OpRemove(k) => Without(s, k)
  }

  function Run<K(==), V>(s: seq<Entry<K, V>>, capacity: nat, ops: seq<Op<K, V>>): seq<Entry<K, V>> {
    if ops == [] then s else Step(Run(s, capacity, ops[..|ops| - 1]), capacity, ops[|ops| - 1])
  }

  // Where a key is found after each of the three things that happen to the list

  lemma FindInFront<K, V>(s: seq<Entry<K, V>>, e: Entry<K, V>, k: K)
    requires Distinct(s) && !Has(s, e.key)
    ensures Distinct([e] + s)
    ensures Find([e] + s, k) == if k == e.key then 0 else 1 + Find(s, k)
    ensures k != e.key ==> Lookup([e] + s, k) == Lookup(s, k)
  {
    assert ([e] + s)[1..] == s;
    assert forall j :: 0 <= j < |s| ==> s[j].key != e.key;
  }

  lemma WithoutIsDistinct<K, V>(s: seq<Entry<K, V>>, o: K)
    requires Distinct(s)
    ensures Distinct(Without(s, o)) && !Has(Without(s, o), o)
  {
    var w, i := Without(s, o), Find(s, o);
    assert forall j :: 0 <= j < |w| ==> w[j] == if j < i then s[j] else s[j + 1];
  }

  lemma FindWithout<K, V>(s: seq<Entry<K, V>>, o: K, k: K)
    requires Distinct(s)
    ensures Distinct(Without(s, o)) && !Has(Without(s, o), o)
    ensures k != o ==> Find(Without(s, o), k) == if Find(s, k) <= Find(s, o) then Find(s, k) else Find(s, k) - 1
    ensures k != o ==> Lookup(Without(s, o), k) == Lookup(s, k)
  {
    WithoutIsDistinct(s, o);
    if !Has(s, k) {
      AbsentFromWithout(s, o, k);
    } else if k != o {
      PresentInWithout(s, o, k);
    }
  }

  lemma PresentInWithout<K, V>(s: seq<Entry<K, V>>, o: K, k: K)
    requires Distinct(s) && k != o && Has(s, k)
    ensures Find(Without(s, o), k) == if Find(s, k) <= Find(s, o) then Find(s, k) else Find(s, k) - 1
    ensures Has(Without(s, o), k) && Lookup(Without(s, o), k) == Lookup(s, k)
  {
    var w, i := Without(s, o), Find(s, o);
    var j := if Find(s, k) <= i then Find(s, k) else Find(s, k) - 1;
    WithoutIsDistinct(s, o);
    assert j < |w| && w[j] == s[Find(s, k)];
    FindIs(w, k, j);
  }

  lemma AbsentFromWithout<K, V>(s: seq<Entry<K, V>>, o: K, k: K)
    requires !Has(s, k)
    ensures !Has(Without(s, o), k)
  {
    var w, i := Without(s, o), Find(s, o);
    assert forall j :: 0 <= j < |w| ==> w[j] == s[if j < i then j else j + 1];
  }

  lemma FindUpToLast<K, V>(s: seq<Entry<K, V>>, k: K)
    requires Distinct(s) && s != []
    ensures Distinct(s[..|s| - 1])
    ensures Find(s[..|s| - 1], k) == if Find(s, k) < |s| - 1 then Find(s, k) else |s| - 1
    ensures Lookup(s[..|s| - 1], k) == if Find(s, k) == |s| - 1 then None else Lookup(s, k)
  {
    var r, i := s[..|s| - 1], Find(s, k);
    if i < |s| - 1 {
      FindIs(r, k, i);
    }
    assert forall j :: 0 <= j < |r| ==> r[j] == s[j];
  }

  /** The list a step inserts in front of, or leaves. */
  function Rest<K(==), V>(s: seq<Entry<K, V>>, capacity: nat, op: Op<K, V>): seq<Entry<K, V>> {
    if Has(s, op.key) then Without(s, op.key)
    else if op.OpPut? && |s| >= capacity && s != [] then s[..|s| - 1]
    else s
  }

  function Inserted<K(==), V>(s: seq<Entry<K, V>>, op: Op<K, V>): Option<Entry<K, V>> {
    match op
    case OpPut(k, v, e) => Some(Entry(k, v, e))
    case OpGet(k, now) => if Has(s, k) && Alive(s[Find(s, k)].expireAt, now) then Lookup(s, k) else None
    case OpRemove(_) => None
  }

  lemma StepInserts<K, V>(s: seq<Entry<K, V>>, capacity: nat, op: Op<K, V>)
    requires Valid(s, capacity)
    ensures Step(s, capacity, op) ==
              match Inserted(s, op) case None => Rest(s, capacity, op) case Some(e) => [e] + Rest(s, capacity, op)
    ensures Distinct(Rest(s, capacity, op)) && !Has(Rest(s, capacity, op), op.key)
    ensures |Rest(s, capacity, op)| <= if op.OpPut? || Has(s, op.key) then capacity - 1 else capacity
  {
    FindWithout(s, op.key, op.key);
    if s != [] {
      FindUpToLast(s, op.key);
    }
  }

  /** A step on another key keeps what is held for `k`, unless it drops `k` from the end of
      a full cache to make room for a new key. */
  lemma StepOnOthers<K, V>(s: seq<Entry<K, V>>, capacity: nat, op: Op<K, V>, k: K)
    requires Valid(s, capacity) && k != op.key
    ensures Lookup(Step(s, capacity, op), k) ==
              if op.OpPut? && !Has(s, op.key) && Find(s, k) == capacity - 1 then None else Lookup(s, k)
  {
    StepInserts(s, capacity, op);
    RestOnOthers(s, capacity, op, k);
    if Inserted(s, op).Some? {
      FindInFront(Rest(s, capacity, op), Inserted(s, op).value, k);
    }
  }

  lemma RestOnOthers<K, V>(s: seq<Entry<K, V>>, capacity: nat, op: Op<K, V>, k: K)
    requires Valid(s, capacity) && k != op.key
    ensures Lookup(Rest(s, capacity, op), k) ==
              if op.OpPut? && !Has(s, op.key) && Find(s, k) == capacity - 1 then None else Lookup(s, k)
  {
    FindWithout(s, op.key, k);
    if !Has(s, op.key) && op.OpPut? && |s| >= capacity {
      FindUpToLast(s, k);
    }
  }

  lemma StepKeepsValid<K, V>(s: seq<Entry<K, V>>, capacity: nat, op: Op<K, V>)
    requires Valid(s, capacity)
    ensures Valid(Step(s, capacity, op), capacity)
  {
    StepInserts(s, capacity, op);
    if Inserted(s, op).Some? {
      FindInFront(Rest(s, capacity, op), Inserted(s, op).value, op.key);
    }
  }

  lemma {:induction false} RunKeepsValid<K, V>(s: seq<Entry<K, V>>, capacity: nat, ops: seq<Op<K, V>>)
    requires Valid(s, capacity)
    ensures Valid(Run(s, capacity, ops), capacity)
  {
    if ops == [] {
    } else {
      RunKeepsValid(s, capacity, ops[..|ops| - 1]);
      StepKeepsValid(Run(s, capacity, ops[..|ops| - 1]), capacity, ops[|ops| - 1]);
    }
  }

  /** What the last put of `k` stored, unless `k` was never put or has been removed since. */
  function LastWrite<K(==), V>(ops: seq<Op<K, V>>, k: K): Option<Entry<K, V>> {
    if ops == [] then None
    else
      match ops[|ops| - 1]
      case OpPut(key, v, e) => if key == k then Some(Entry(k, v, e)) else LastWrite(ops[..|ops| - 1], k)
      case OpGet(_, _) => LastWrite(ops[..|ops| - 1], k)
      case OpRemove(key) => if key == k then None else LastWrite(ops[..|ops| - 1], k)
  }

  /** Whatever a cache that started empty holds for `k` is what was last written for it. */
  lemma {:induction false} HoldsLastWrite<K, V>(capacity: nat, ops: seq<Op<K, V>>, k: K)
    requires capacity > 0
    ensures Has(Run([], capacity, ops), k) ==> Lookup(Run([], capacity, ops), k) == LastWrite(ops, k)
  {
    if ops == [] {
    } else {
      var init, op := ops[..|ops| - 1], ops[|ops| - 1];
      var s := Run([], capacity, init);
      HoldsLastWrite(capacity, init, k);
      RunKeepsValid([], capacity, init);
      if op.key != k {
        StepOnOthers(s, capacity, op, k);
      } else {
        StepOnKey(s, capacity, op);
      }
    }
  }

  /** A lookup answers what is held until its deadline, if it has one, and brings it to the front;
      from the deadline on it answers nothing, and nothing is held any more. */
  lemma GetKeepsDeadline<K, V>(s: seq<Entry<K, V>>, capacity: nat, k: K, now: int)
    requires Valid(s, capacity)
    ensures var (s', hit) := Get(s, k, now);
            match Lookup(s, k)
            case Some(e) =>
              if e.expireAt <= 0 || now < e.expireAt then hit == Some(e.value) && Lookup(s', k) == Some(e) && s'[0] == e
              else hit == None && !Has(s', k)
            case None => hit == None && s' == s
  {
    var op: Op<K, V> := OpGet(k, now);
    StepOnKey(s, capacity, op);
  }

  /** A put is in front, and found by lookups until its deadline, if it has one. */
  lemma PutThenGet<K, V>(s: seq<Entry<K, V>>, capacity: nat, k: K, v: V, expireAt: int, now: int)
    requires Valid(s, capacity)
    ensures Put(s, capacity, k, v, expireAt)[0] == Entry(k, v, expireAt)
    ensures Get(Put(s, capacity, k, v, expireAt), k, now).1 == if expireAt <= 0 || now < expireAt then Some(v) else None
  {
  }

  /** A hit answers what the last put of `k` stored, and its deadline has not passed. */
  lemma HitAnswersLastWrite<K, V>(capacity: nat, ops: seq<Op<K, V>>, k: K, now: int)
    requires capacity > 0 && Get(Run([], capacity, ops), k, now).1.Some?
    ensures LastWrite(ops, k).Some?
    ensures Get(Run([], capacity, ops), k, now).1 == Some(LastWrite(ops, k).value.value)
    ensures Alive(LastWrite(ops, k).value.expireAt, now)
  {
    HoldsLastWrite(capacity, ops, k);
  }

  lemma StepOnKey<K, V>(s: seq<Entry<K, V>>, capacity: nat, op: Op<K, V>)
    requires Valid(s, capacity)
    ensures Lookup(Step(s, capacity, op), op.key) == Inserted(s, op)
    ensures Inserted(s, op).Some? ==> Find(Step(s, capacity, op), op.key) == 0
  {
    StepInserts(s, capacity, op);
    if Inserted(s, op).Some? {
      FindInFront(Rest(s, capacity, op), Inserted(s, op).value, op.key);
    }
  }

  // ---------------------------------------------------------------------------
  // Survival: recently used keys stay
  // ---------------------------------------------------------------------------

  /** The keys other than `k` that a run mentions. */
  function Others<K(==), V>(ops: seq<Op<K, V>>, k: K): set<K> {
    if ops == [] then {}
    else Others(ops[..|ops| - 1], k) + if ops[|ops| - 1].key == k then {} else {ops[|ops| - 1].key}
  }

  /** No operation of the run removes `k` or lets it expire before `until`. */
  ghost predicate Keeps<K, V>(ops: seq<Op<K, V>>, k: K, until: int) {
    forall op :: op in ops && op.key == k ==>
      && !op.OpRemove?
      && (op.OpPut? ==> Alive(op.expireAt, until))
      && (op.OpGet? ==> op.now <= until)
  }

  /** `k` is held and only keys of `ahead` have been used more recently. */
  ghost predicate BehindAtMost<K, V>(s: seq<Entry<K, V>>, k: K, ahead: set<K>) {
    Has(s, k) && k !in ahead && forall j :: 0 <= j < Find(s, k) ==> s[j].key in ahead
  }

  lemma {:induction false} Pigeonhole<K, V>(s: seq<Entry<K, V>>, n: nat, keys: set<K>)
    requires Distinct(s) && n <= |s| && forall j :: 0 <= j < n ==> s[j].key in keys
    ensures n <= |keys|
  {
    if n > 0 {
      Pigeonhole(s, n - 1, keys - {s[n - 1].key});
    }
  }

  lemma StaysBehind<K, V>(s: seq<Entry<K, V>>, capacity: nat, op: Op<K, V>, k: K, ahead: set<K>)
    requires Valid(s, capacity) && k != op.key
    requires BehindAtMost(s, k, ahead) && |ahead + {op.key}| < capacity
    ensures BehindAtMost(Step(s, capacity, op), k, ahead + {op.key})
    ensures Lookup(Step(s, capacity, op), k) == Lookup(s, k)
  {
    var s', i := Step(s, capacity, op), Find(s, k);
    if !Has(s, op.key) {
      Pigeonhole(s, i, ahead - {op.key});
      assert ahead + {op.key} == (ahead - {op.key}) + {op.key};
    }
    StepOnOthers(s, capacity, op, k);
    StepInserts(s, capacity, op);
    forall j | 0 <= j < Find(s', k) && s'[j].key != op.key
      ensures s'[j].key in ahead
    {
      StaysAhead(s, capacity, op, k, j);
    }
  }

  /** What is ahead of `k` after a step on another key was ahead of it before. */
  lemma StaysAhead<K, V>(s: seq<Entry<K, V>>, capacity: nat, op: Op<K, V>, k: K, j: nat)
    requires Valid(s, capacity) && k != op.key && Has(Step(s, capacity, op), k)
    requires j < Find(Step(s, capacity, op), k) && Step(s, capacity, op)[j].key != op.key
    ensures Find(s, Step(s, capacity, op)[j].key) < Find(s, k) < |s|
  {
    var s', x := Step(s, capacity, op), Step(s, capacity, op)[j].key;
    StepKeepsValid(s, capacity, op);
    FindIs(s', x, j);
    FindAfterStep(s, capacity, op, k);
    FindAfterStep(s, capacity, op, x);
  }

  lemma FindAfterStep<K, V>(s: seq<Entry<K, V>>, capacity: nat, op: Op<K, V>, k: K)
    requires Valid(s, capacity) && k != op.key && Has(Step(s, capacity, op), k)
    ensures Has(s, k)
    ensures Find(Step(s, capacity, op), k) == Find(s, k)
              - (if Find(s, k) <= Find(s, op.key) then 0 else 1) + if Inserted(s, op).Some? then 1 else 0
  {
    var rest := Rest(s, capacity, op);
    StepInserts(s, capacity, op);
    FindWithout(s, op.key, k);
    if s != [] {
      FindUpToLast(s, k);
    }
    if Inserted(s, op).Some? {
      FindInFront(rest, Inserted(s, op).value, k);
    }
  }

  lemma OthersOfPrefix<K, V>(ops: seq<Op<K, V>>, k: K)
    requires ops != []
    ensures |Others(ops[..|ops| - 1], k)| <= |Others(ops, k)|
    ensures ops[|ops| - 1].key != k ==>
              Others(ops, k) == Others(ops[..|ops| - 1], k) + {ops[|ops| - 1].key}
  {
    SubsetIsSmaller(Others(ops[..|ops| - 1], k), Others(ops, k));
  }

  /** What the last put of `k` in the run stored, or `held` if the run has none. */
  function Latest<K(==), V>(held: Entry<K, V>, ops: seq<Op<K, V>>, k: K): Entry<K, V> {
    if ops == [] then held
    else
      var op := ops[|ops| - 1];
      if op.OpPut? && op.key == k then Entry(k, op.value, op.expireAt) else Latest(held, ops[..|ops| - 1], k)
  }

  lemma {:induction false} StaysCached<K, V>(
      s: seq<Entry<K, V>>, capacity: nat, ops: seq<Op<K, V>>, k: K, until: int)
    requires Valid(s, capacity) && s != [] && s[0].key == k && Alive(s[0].expireAt, until)
    requires Keeps(ops, k, until) && |Others(ops, k)| < capacity
    ensures BehindAtMost(Run(s, capacity, ops), k, Others(ops, k))
    ensures Lookup(Run(s, capacity, ops), k) == Some(Latest(s[0], ops, k))
    ensures Alive(Latest(s[0], ops, k).expireAt, until)
  {
    if ops == [] {
    } else {
      var init, op := ops[..|ops| - 1], ops[|ops| - 1];
      OthersOfPrefix(ops, k);
      StaysCached(s, capacity, init, k, until);
      RunKeepsValid(s, capacity, init);
      if op.key == k {
        assert op in ops;
        StepOnKey(Run(s, capacity, init), capacity, op);
      } else {
        StaysBehind(Run(s, capacity, init), capacity, op, k, Others(init, k));
      }
    }
  }

  /** A key just put, or just hit, is still found after any run that mentions fewer than
      `capacity` other keys and neither removes it nor lets it expire; the hit answers the
      latest value. */
  lemma RecentlyUsedSurvives<K, V>(s: seq<Entry<K, V>>, capacity: nat, ops: seq<Op<K, V>>, k: K, until: int)
    requires Valid(s, capacity) && s != [] && s[0].key == k && Alive(s[0].expireAt, until)
    requires Keeps(ops, k, until) && |Others(ops, k)| < capacity
    ensures Get(Run(s, capacity, ops), k, until).1 == Some(Latest(s[0], ops, k).value)
  {
    StaysCached(s, capacity, ops, k, until);
  }

  // ---------------------------------------------------------------------------
  // Stack inclusion: a larger cache holds whatever a smaller one holds
  // ---------------------------------------------------------------------------

  /** Requests whose entries never expire; a `Fetch` puts on a miss. */
  datatype Request<K, V> = Store(key: K, value: V) | Fetch(key: K, value: V) | Drop(key: K)

  function Serve<K(==), V>(s: seq<Entry<K, V>>, capacity: nat, r: Request<K, V>): seq<Entry<K, V>> {
    match r
    case Store(k, v) => Put(s, capacity, k, v, 0)
    case Fetch(k, v) => if Get(s, k, 0).1.Some? then Get(s, k, 0).0 else Put(Get(s, k, 0).0, capacity, k, v, 0)
    case Drop(k) => Without(s, k)
  }

  function ServeAll<K(==), V>(capacity: nat, rs: seq<Request<K, V>>): seq<Entry<K, V>> {
    if rs == [] then [] else Serve(ServeAll(capacity, rs[..|rs| - 1]), capacity, rs[|rs| - 1])
  }

  ghost predicate Immortal<K, V>(s: seq<Entry<K, V>>) {
    forall i :: 0 <= i < |s| ==> s[i].expireAt <= 0
  }

  /** The keys of `s` are the first keys of `t`. */
  ghost predicate KeysLead<K, V>(s: seq<Entry<K, V>>, t: seq<Entry<K, V>>) {
    |s| <= |t| && forall i :: 0 <= i < |s| ==> s[i].key == t[i].key
  }

  lemma ServeIsAStep<K, V>(s: seq<Entry<K, V>>, capacity: nat, r: Request<K, V>) returns (op: Op<K, V>)
    requires Valid(s, capacity) && Immortal(s)
    ensures op.key == r.key && Serve(s, capacity, r) == Step(s, capacity, op)
    ensures op.OpRemove? <==> r.Drop?
    ensures op.OpGet? ==> Has(s, op.key)
    ensures op.OpPut? ==> op.expireAt == 0
    ensures Inserted(s, op).Some? <==> !r.Drop?
    ensures Valid(Serve(s, capacity, r), capacity)
  {
    op := match r
      case Store(k, v) => OpPut(k, v, 0)
      case Fetch(k, v) => if Has(s, k) then OpGet(k, 0) else OpPut(k, v, 0)
      case Drop(k) => OpRemove(k);
    StepInserts(s, capacity, op);
    StepKeepsValid(s, capacity, op);
  }

  lemma ServeStaysImmortal<K, V>(s: seq<Entry<K, V>>, capacity: nat, r: Request<K, V>)
    requires Valid(s, capacity) && Immortal(s)
    ensures Immortal(Serve(s, capacity, r))
  {
    var op := ServeIsAStep(s, capacity, r);
    StepInserts(s, capacity, op);
    RestStaysImmortal(s, capacity, op);
  }

  lemma RestStaysImmortal<K, V>(s: seq<Entry<K, V>>, capacity: nat, op: Op<K, V>)
    requires Immortal(s)
    ensures Immortal(Rest(s, capacity, op))
  {
    var rest := Rest(s, capacity, op);
    if Has(s, op.key) {
      assert rest == Cut(s, Find(s, op.key));
    }
  }

  lemma LeadersFind<K, V>(s: seq<Entry<K, V>>, t: seq<Entry<K, V>>, k: K)
    requires Distinct(s) && Distinct(t) && KeysLead(s, t)
    ensures Find(s, k) == if Find(t, k) < |s| then Find(t, k) else |s|
  {
    if Find(t, k) < |s| {
      FindIs(s, k, Find(t, k));
    } else if Has(s, k) {
      FindIs(t, k, Find(s, k));
    }
  }

  lemma RestKeepsLead<K, V>(s: seq<Entry<K, V>>, c: nat, p: Op<K, V>, t: seq<Entry<K, V>>, d: nat, q: Op<K, V>)
    requires 0 < c <= d && Distinct(s) && Distinct(t) && |s| <= c && |t| <= d && KeysLead(s, t)
    requires p.key == q.key && (p.OpRemove? <==> q.OpRemove?)
    requires (p.OpGet? ==> Has(s, p.key)) && (q.OpGet? ==> Has(t, q.key))
    ensures KeysLead(Rest(s, c, p), Rest(t, d, q))
  {
    LeadersFind(s, t, p.key);
  }

  lemma ServeKeepsLead<K, V>(s: seq<Entry<K, V>>, c: nat, t: seq<Entry<K, V>>, d: nat, r: Request<K, V>)
    requires c <= d && Valid(s, c) && Valid(t, d) && Immortal(s) && Immortal(t) && KeysLead(s, t)
    ensures KeysLead(Serve(s, c, r), Serve(t, d, r))
  {
    var p := ServeIsAStep(s, c, r);
    var q := ServeIsAStep(t, d, r);
    StepInserts(s, c, p);
    StepInserts(t, d, q);
    RestKeepsLead(s, c, p, t, d, q);
    if Inserted(s, p).Some? {
      assert Inserted(s, p).value.key == Inserted(t, q).value.key;
    }
  }

  /** Over every run of non-expiring requests the keys of the smaller cache are a prefix of
      the keys of the larger one, so every hit in the smaller is a hit in the larger. */
  lemma {:induction false} LargerCacheIncludesSmaller<K, V>(c: nat, d: nat, rs: seq<Request<K, V>>)
    requires 0 < c <= d
    ensures Valid(ServeAll(c, rs), c) && Valid(ServeAll(d, rs), d)
    ensures Immortal(ServeAll(c, rs)) && Immortal(ServeAll(d, rs))
    ensures KeysLead(ServeAll(c, rs), ServeAll(d, rs))
    ensures forall k, now :: Get(ServeAll(c, rs), k, now).1.Some? ==> Get(ServeAll(d, rs), k, now).1.Some?
  {
    if rs == [] {
    } else {
      var init, r := rs[..|rs| - 1], rs[|rs| - 1];
      LargerCacheIncludesSmaller(c, d, init);
      var p := ServeIsAStep(ServeAll(c, init), c, r);
      var q := ServeIsAStep(ServeAll(d, init), d, r);
      ServeStaysImmortal(ServeAll(c, init), c, r);
      ServeStaysImmortal(ServeAll(d, init), d, r);
      ServeKeepsLead(ServeAll(c, init), c, ServeAll(d, init), d, r);
    }
    var s, t := ServeAll(c, rs), ServeAll(d, rs);
    forall k, now | Get(s, k, now).1.Some?
      ensures Get(t, k, now).1.Some?
    {
      LeadersFind(s, t, k);
    }
  }
}
