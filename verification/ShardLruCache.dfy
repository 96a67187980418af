/** The sharded LRU cache of `common/container/lru_cache.go`: a hash function routes every
    key to one of several independent LRU caches. */
module ShardLruCaches {
  import opened Basics
  import opened LruSpec
  import opened LruCaches

  const DEFAULT_BUCKET_COUNT := 10

  /** Go's remainder, which takes the sign of the dividend. */
  function GoRem(a: int, b: int): int
    requires b > 0
  {
    if a >= 0 then a % b else -((-a) % b)
  }

  /** The shard of a hash value: the remainder, negated when it is negative. */
  function ShardIndex(hash: int, shardCount: int): (i: int)
    requires shardCount > 0
    ensures 0 <= i < shardCount
    ensures i == (if hash < 0 then -hash else hash) % shardCount
  {
    var index := GoRem(hash, shardCount);
    if index < 0 then -index else index
  }

  // ---------------------------------------------------------------------------
  // Sharded runs
  // ---------------------------------------------------------------------------

  datatype ShardOp<T> =
    | ShardPut(key: string, value: T, now: int)
    | ShardGet(key: string, now: int)
    | ShardRemove(key: string)

  function PutExpiry(expiration: int, now: int): int {
    if expiration > 0 then now + expiration else 0
  }

  function Inner<T>(expiration: int, op: ShardOp<T>): Op<string, T> {
    match op
    case ShardPut(k, v, now) => OpPut(k, v, PutExpiry(expiration, now))
    case ShardGet(k, now) => OpGet(k, now)
    case ShardRemove(k) => OpRemove(k)
  }

  function Route(hash: string -> int, shardCount: nat, key: string): nat
    requires shardCount > 0
  {
    ShardIndex(hash(key), shardCount)
  }

  function ShardStep<T>(
      shards: seq<seq<Entry<string, T>>>, capacity: nat, expiration: int, hash: string -> int, op: ShardOp<T>)
    : (r: seq<seq<Entry<string, T>>>)
    requires |shards| > 0
    ensures |r| == |shards|
  {
    var i := Route(hash, |shards|, op.key);
    shards[i := Step(shards[i], capacity, Inner(expiration, op))]
  }

  function ShardRun<T>(
      shards: seq<seq<Entry<string, T>>>, capacity: nat, expiration: int, hash: string -> int, ops: seq<ShardOp<T>>)
    : (r: seq<seq<Entry<string, T>>>)
    requires |shards| > 0
    ensures |r| == |shards|
  {
    if ops == [] then shards
    else ShardStep(ShardRun(shards, capacity, expiration, hash, ops[..|ops| - 1]), capacity, expiration, hash, ops[|ops| - 1])
  }

  /** The operations of a run that reach shard `i`, as that shard sees them. */
  function Routed<T>(expiration: int, hash: string -> int, shardCount: nat, i: nat, ops: seq<ShardOp<T>>): seq<Op<string, T>>
    requires shardCount > 0
  {
    if ops == [] then []
    else
      Routed(expiration, hash, shardCount, i, ops[..|ops| - 1])
      + if Route(hash, shardCount, ops[|ops| - 1].key) == i then [Inner(expiration, ops[|ops| - 1])] else []
  }

  /** With a fixed hash function every shard runs as a cache of its own. */
  lemma {:induction false} ShardsRunApart<T>(
      shards: seq<seq<Entry<string, T>>>, capacity: nat, expiration: int, hash: string -> int, ops: seq<ShardOp<T>>, i: nat)
    requires i < |shards|
    ensures ShardRun(shards, capacity, expiration, hash, ops)[i] ==
              Run(shards[i], capacity, Routed(expiration, hash, |shards|, i, ops))
  {
    if ops == [] {
    } else {
      var init := ops[..|ops| - 1];
      ShardsRunApart(shards, capacity, expiration, hash, init, i);
      var before := Routed(expiration, hash, |shards|, i, init);
      var all := Routed(expiration, hash, |shards|, i, ops);
      if Route(hash, |shards|, ops[|ops| - 1].key) == i {
        assert all[..|all| - 1] == before;
      } else {
        assert all == before;
      }
    }
  }

  /** A value put is found in its shard until the expiration of the cache has passed since, and for
      ever without one, or with a clock so far back that the deadline is none; no other shard is
      touched. */
  lemma PutThenGetInShard<T>(
      shards: seq<seq<Entry<string, T>>>, capacity: nat, expiration: int, hash: string -> int,
      k: string, v: T, putAt: int, getAt: int)
    requires |shards| > 0
    requires forall i :: 0 <= i < |shards| ==> LruSpec.Valid(shards[i], capacity)
    ensures var i, after := Route(hash, |shards|, k), ShardStep(shards, capacity, expiration, hash, ShardPut(k, v, putAt));
            && (Get(after[i], k, getAt).1 == Some(v) <==>
                  expiration <= 0 || getAt < putAt + expiration || putAt + expiration <= 0)
            && forall j :: 0 <= j < |shards| && j != i ==> after[j] == shards[j]
  {
    PutThenGet(shards[Route(hash, |shards|, k)], capacity, k, v, PutExpiry(expiration, putAt), getAt);
  }

  /** A lookup reaches the key's shard as a lookup, a removal as a removal of that key alone, and no
      other shard at all. */
  lemma GetAndRemoveInShard<T>(
      shards: seq<seq<Entry<string, T>>>, capacity: nat, expiration: int, hash: string -> int,
      k: string, now: int, other: string)
    requires |shards| > 0 && other != k
    requires forall i :: 0 <= i < |shards| ==> LruSpec.Valid(shards[i], capacity)
    ensures var i := Route(hash, |shards|, k);
            var got := ShardStep(shards, capacity, expiration, hash, ShardGet(k, now));
            var removed := ShardStep(shards, capacity, expiration, hash, ShardRemove(k));
            && got[i] == Get(shards[i], k, now).0
            && Lookup(got[i], other) == Lookup(shards[i], other)
            && !Has(removed[i], k) && Lookup(removed[i], other) == Lookup(shards[i], other)
            && forall j :: 0 <= j < |shards| && j != i ==> got[j] == removed[j] == shards[j]
  {
    var s := shards[Route(hash, |shards|, k)];
    StepOnOthers(s, capacity, OpGet(k, now), other);
    FindWithout(s, k, other);
  }

  /** A key just put, or just hit, is still found after any run that mentions fewer than
      the bucket's capacity of other keys of the same shard, however many of other shards. */
  lemma RecentlyUsedSurvivesInShard<T>(
      shards: seq<seq<Entry<string, T>>>, capacity: nat, expiration: int, hash: string -> int, ops: seq<ShardOp<T>>,
      k: string, until: int)
    requires |shards| > 0
    requires var s := shards[Route(hash, |shards|, k)];
             LruSpec.Valid(s, capacity) && s != [] && s[0].key == k && Alive(s[0].expireAt, until)
    requires var mine := Routed(expiration, hash, |shards|, Route(hash, |shards|, k), ops);
             Keeps(mine, k, until) && |Others(mine, k)| < capacity
    ensures var i := Route(hash, |shards|, k);
            var mine := Routed(expiration, hash, |shards|, i, ops);
            Get(ShardRun(shards, capacity, expiration, hash, ops)[i], k, until).1
              == Some(Latest(shards[i][0], mine, k).value)
  {
    var i := Route(hash, |shards|, k);
    ShardsRunApart(shards, capacity, expiration, hash, ops, i);
    RecentlyUsedSurvives(shards[i], capacity, Routed(expiration, hash, |shards|, i, ops), k, until);
  }

  // ---------------------------------------------------------------------------
  // The cache
  // ---------------------------------------------------------------------------

  /** Empty shards with nothing in common. */
  method MakeShards<T(0)>(count: nat, capacity: nat) returns (made: seq<LruCache<string, T>>, ghost parts: set<object>)
    requires capacity > 0
    ensures |made| == count && fresh(parts)
    ensures forall i :: 0 <= i < |made| ==>
              && {made[i], made[i].list, made[i].list.root} <= parts && made[i].list.repr == {}
              && made[i].Valid() && made[i].Entries() == [] && made[i].capacity == capacity
    ensures forall i, j :: 0 <= i < j < |made| ==>
              made[i] != made[j] && made[i].list != made[j].list && made[i].list.root != made[j].list.root
  {
    made, parts := [], {};
    while |made| < count
      invariant |made| <= count && fresh(parts)
      invariant forall i :: 0 <= i < |made| ==>
                  && {made[i], made[i].list, made[i].list.root} <= parts && made[i].list.repr == {}
                  && made[i].Valid() && made[i].Entries() == [] && made[i].capacity == capacity
      invariant forall i, j :: 0 <= i < j < |made| ==>
                  made[i] != made[j] && made[i].list != made[j].list && made[i].list.root != made[j].list.root
    {
      var shard := new LruCache(capacity);
      made, parts := made + [shard], parts + {shard, shard.list, shard.list.root};
    }
  }

  class ShardLruCache<T(0)> {
    const shards: seq<LruCache<string, T>>
    const shardCount: int
    const expiration: int
    var hashFunc: string -> int
    ghost var view: seq<seq<Entry<string, T>>>  // what each shard holds
    ghost var Repr: set<object>

    ghost predicate Valid()
      reads `view, `Repr, Repr
    {
      && 0 < shardCount == |shards| == |view| && this !in Repr
      && (forall i :: 0 <= i < shardCount ==> Shard(i))
      && (forall i, j :: 0 <= i < shardCount && 0 <= j < shardCount && i != j ==>
            Shard(i) && Shard(j) && Apart(i, j))
    }

    ghost function BucketCapacity(): (c: nat)
      requires Valid()
      reads `view, `Repr, Repr
    {
      assert Shard(0);
      shards[0].capacity
    }

    ghost predicate Shard(i: nat)
      requires i < |shards| == |view|
      reads `view, `Repr, Repr
    {
      && shards[i] in Repr && shards[i].list in Repr && shards[i].list.root in Repr && shards[i].list.repr <= Repr
      && shards[i].Valid() && shards[i].capacity == shards[0].capacity && shards[i].Entries() == view[i]
    }

    ghost predicate Apart(i: nat, j: nat)
      requires i < |shards| && j < |shards|
      requires shards[i].list in Repr && shards[j].list in Repr
      reads `view, `Repr, Repr
    {
      && shards[i] != shards[j] && shards[i].list != shards[j].list && shards[i].list.root != shards[j].list.root
      && shards[i].list.root !in shards[j].list.repr && shards[i].list.repr !! shards[j].list.repr
    }

    constructor (bucketCnt: int, bucketCapacity: int, expiration: int, defaultHash: string -> int)
      ensures Valid() && this.expiration == expiration && hashFunc == defaultHash
      ensures shardCount == if bucketCnt <= 0 then 10 else bucketCnt
      ensures BucketCapacity() == if bucketCapacity <= 0 then 1000 else bucketCapacity
      ensures forall i :: 0 <= i < shardCount ==> view[i] == []
    {
      var count := if bucketCnt <= 0 then DEFAULT_BUCKET_COUNT else bucketCnt;
      var capacity := if bucketCapacity <= 0 then DEFAULT_LRU_CACHE_CAPACITY else bucketCapacity;
      ghost var parts: set<object>;
      var made;
      made, parts := MakeShards<T>(count, capacity);
      shards := made;
      shardCount := count;
      this.expiration := expiration;
      hashFunc := defaultHash;
      view, Repr := seq(count, _ => []), parts;
    }

    /** A nil function, here `None`, is ignored. */
    method SetHashFunc(fn: Option<string -> int>)
      requires Valid()
      modifies this`hashFunc
      ensures Valid() && hashFunc == if fn.None? then old(hashFunc) else fn.value
    {
      if fn.None? {
        return;
      }
      hashFunc := fn.value;
    }

    function GetShard(key: string): (shard: LruCache<string, T>)
      requires 0 < shardCount == |shards|
      reads this
      ensures shard == shards[Route(hashFunc, shardCount, key)]
    {
      var shardIndex := GoRem(hashFunc(key), shardCount);
      shards[if shardIndex < 0 then -shardIndex else shardIndex]
    }

    method Put(key: string, val: T, now: int)
      requires Valid()
      modifies this`view, this`Repr, Repr
      ensures Valid() && fresh(Repr - old(Repr))
      ensures view == ShardStep(old(view), BucketCapacity(), expiration, hashFunc, ShardPut(key, val, now))
    {
      var shard := GetShard(key);
      var expireAt := 0;
      if expiration > 0 {
        expireAt := now + expiration;
      }
      assert expireAt == PutExpiry(expiration, now);
      ghost var k := Route(hashFunc, shardCount, key);
      assert Shard(k);
      shard.Put(key, val, expireAt);
      view, Repr := view[k := shard.Entries()], Repr + shard.list.repr;
      OthersUntouched(k);
    }

    method Get(key: string, now: int) returns (r: Option<T>)
      requires Valid()
      modifies this`view, Repr
      ensures Valid()
      ensures view == ShardStep(old(view), BucketCapacity(), expiration, hashFunc, ShardGet(key, now))
      ensures r == LruSpec.Get(old(view)[Route(hashFunc, shardCount, key)], key, now).1
    {
      var shard := GetShard(key);
      ghost var k := Route(hashFunc, shardCount, key);
      assert Shard(k);
      r := shard.Get(key, now);
      view := view[k := shard.Entries()];
      OthersUntouched(k);
    }

    method Remove(key: string)
      requires Valid()
      modifies this`view, Repr
      ensures Valid()
      ensures view == ShardStep(old(view), BucketCapacity(), expiration, hashFunc, ShardRemove(key))
    {
      var shard := GetShard(key);
      ghost var k := Route(hashFunc, shardCount, key);
      assert Shard(k);
      shard.Remove(key);
      view := view[k := shard.Entries()];
      OthersUntouched(k);
    }

    /** Of what there was, only the parts of shard `k` were touched. */
    twostate predicate OnlyTouched(k: nat)
      requires k < |shards|
      reads `Repr, Repr, shards[k].list
    {
      && old(Repr) <= Repr && fresh(Repr - old(Repr))
      && shards[k].list.repr <= Repr && fresh(shards[k].list.repr - old(shards[k].list.repr))
      && forall o :: o in old(Repr) && o !in {shards[k], shards[k].list, shards[k].list.root} + old(shards[k].list.repr)
           ==> unchanged(o)
    }

    twostate lemma ShardsUntouched(k: nat)
      requires old(Valid())
      requires k < shardCount && OnlyTouched(k)
      ensures forall i :: 0 <= i < shardCount && i != k ==>
                && unchanged(shards[i]) && unchanged(shards[i].list) && unchanged(shards[i].list.root)
                && forall o :: o in shards[i].list.repr ==> unchanged(o)
    {
      forall i | 0 <= i < shardCount && i != k
        ensures unchanged(shards[i]) && unchanged(shards[i].list) && unchanged(shards[i].list.root)
        ensures forall o :: o in shards[i].list.repr ==> unchanged(o)
      {
        assert old(Shard(i));
        assert old(Shard(k));
        assert old(Apart(i, k));
        assert old(Apart(k, i));
      }
    }

    /** When only shard `k` was touched, the cache is as valid as before. */
    twostate lemma OthersUntouched(k: nat)
      requires old(Valid())
      requires k < shardCount == |view| && OnlyTouched(k)
      requires shards[k].Valid() && shards[k].list in Repr && shards[k].Entries() == view[k]
      requires view == old(view)[k := view[k]]
      ensures Valid()
    {
      ShardsUntouched(k);
      assert old(Shard(k));
      assert old(Shard(0));
      forall i | 0 <= i < shardCount
        ensures Shard(i)
      {
        assert old(Shard(i));
      }
      forall i, j | 0 <= i < shardCount && 0 <= j < shardCount && i != j
        ensures Shard(i) && Shard(j) && Apart(i, j)
      {
        assert Shard(i) && Shard(j);
        assert old(Shard(i));
        assert old(Shard(j));
        assert old(Apart(i, j));
      }
    }
  }
}
