/** The 2Q cache of `common/container/lru_cache.go`: an LRU cache and, beside it, a FIFO list
    that is searched from the front. */
module LruCaches2Q {
  import opened Basics
  import opened Seqs
  import opened LruSpec
  import opened TwoQueueSpec
  import opened LinkedLists
  import opened LruCaches

  class LruCache2Q<K(==,0,!new), V(0)> {
    const lru: LruCache<K, V>
    const fifoQueue: List<Entry<K, V>>
    const expiration: int

    ghost predicate Valid()
      reads this, lru, lru.list, lru.list.root, lru.list.repr, fifoQueue, fifoQueue.root, fifoQueue.repr
    {
      Separate() && Inv(View(), lru.capacity)
    }

    /** The two lists are well formed and share no node. */
    ghost predicate Separate()
      reads this, lru, lru.list, lru.list.root, lru.list.repr, fifoQueue, fifoQueue.root, fifoQueue.repr
    {
      && lru.Valid() && fifoQueue.Valid() && lru.list != fifoQueue && lru.list.root != fifoQueue.root
      && lru.list.root !in fifoQueue.repr && fifoQueue.root !in lru.list.repr
      && lru.list.repr !! fifoQueue.repr
    }

    ghost function View(): State<K, V>
      reads this, lru, lru.list, fifoQueue
    {
      State(lru.Entries(), fifoQueue.values)
    }

    constructor (capacity: int, expiration: int)
      ensures Valid() && View() == State([], []) && this.expiration == expiration
      ensures lru.capacity == if capacity <= 0 then 1000 else capacity
    {
      fifoQueue := new List();
      this.expiration := expiration;
      lru := new LruCache(capacity);
    }

    /** The cursor loop over the FIFO list: the first node whose entry has this key. */
    method Seek(key: K) returns (cursor: Node?<Entry<K, V>>)
      requires fifoQueue.Valid()
      ensures var i := Find(fifoQueue.values, key);
              if i < fifoQueue.len then cursor == fifoQueue.nodes[i] else cursor == null
    {
      ghost var i := 0;
      cursor := fifoQueue.Front();
      while cursor != null
        invariant 0 <= i <= fifoQueue.len && i <= Find(fifoQueue.values, key)
        invariant if i < fifoQueue.len then cursor == fifoQueue.nodes[i] else cursor == null
        decreases fifoQueue.len - i
      {
        assert fifoQueue.Holds(i);
        if cursor.value.key == key {
          return;
        }
        cursor := fifoQueue.Next(cursor, i);
        i := i + 1;
      }
    }

    /** Puts the key of the FIFO node `cursor` into the LRU cache and drops the node. */
    method Promote(cursor: Node<Entry<K, V>>, key: K, value: V, expireAt: int)
      requires Separate() && Has(fifoQueue.values, key) && cursor == fifoQueue.nodes[Find(fifoQueue.values, key)]
      modifies lru, lru.list, lru.list.root, lru.list.repr, fifoQueue, fifoQueue.root, fifoQueue.repr
      ensures Separate() && View().lru == LruSpec.Put(old(View().lru), lru.capacity, key, value, expireAt)
      ensures View().fifo == Without(old(View().fifo), key)
    {
      lru.Put(key, value, expireAt);
      assert fifoQueue.Valid();
      Discard(cursor, key);
    }

    /** Puts a new entry into the FIFO list, at the cost of the last one when it is full. */
    method Enqueue(entry: Entry<K, V>)
      requires Separate()
      modifies fifoQueue, fifoQueue.root, fifoQueue.repr
      ensures Separate() && View().lru == old(View().lru)
      ensures View().fifo == Enqueued(old(View().fifo), lru.capacity, entry)
    {
      if fifoQueue.len >= lru.capacity {
        var last := fifoQueue.Back();
        CutLast(fifoQueue.values);
        fifoQueue.Remove(last, fifoQueue.len - 1);
      }
      var front := fifoQueue.PushFront(entry);
    }

    method Put(key: K, value: V, now: int)
      requires Valid()
      modifies lru, lru.list, lru.list.root, lru.list.repr, fifoQueue, fifoQueue.root, fifoQueue.repr
      ensures Valid()
      ensures View() == Put2Q(old(View()), lru.capacity, expiration, key, value, now)
    {
      StepKeepsInv(View(), lru.capacity, expiration, Put2(key, value, now));
      PutLocked(key, value, now);
    }

    method PutLocked(key: K, value: V, now: int)
      requires Separate()
      modifies lru, lru.list, lru.list.root, lru.list.repr, fifoQueue, fifoQueue.root, fifoQueue.repr
      ensures Separate()
      ensures View() == Put2Q(old(View()), lru.capacity, expiration, key, value, now)
    {
      ghost var deadline := PutDeadline(View(), expiration, key, now);
      var hit := Recall(key, now);
      if hit.Some? {
        var expireAt := now + expiration;
        assert expireAt == deadline;
        Renew(key, value, expireAt);
      } else {
        PutUnlessLive(key, value, now, deadline);
      }
    }

    /** The rest of a put once the LRU lookup has missed. */
    method PutUnlessLive(key: K, value: V, now: int, ghost deadline: int)
      requires Separate()
      requires deadline == if Has(View().fifo, key) then View().fifo[Find(View().fifo, key)].expireAt + expiration
                           else Deadline(expiration, now)
      modifies lru, lru.list, lru.list.root, lru.list.repr, fifoQueue, fifoQueue.root, fifoQueue.repr
      ensures Separate()
      ensures View() == PutMissed(old(View()), lru.capacity, key, value, deadline)
    {
      var cursor := Seek(key);
      if cursor != null {
        assert fifoQueue.Holds(Find(fifoQueue.values, key));
        var refreshed := cursor.value.expireAt + expiration;
        assert refreshed == deadline;
        Promote(cursor, key, value, refreshed);
        return;
      }
      var expireAt := 0;
      if expiration > 0 {
        expireAt := now + expiration;
      }
      assert expireAt == deadline;
      Enqueue(Entry(key, value, expireAt));
    }

    method Renew(key: K, value: V, expireAt: int)
      requires Separate()
      modifies lru, lru.list, lru.list.root, lru.list.repr
      ensures Separate() && View().fifo == old(View().fifo)
      ensures View().lru == LruSpec.Put(old(View().lru), lru.capacity, key, value, expireAt)
    {
      lru.Put(key, value, expireAt);
      assert fifoQueue.Valid();
    }

    method Recall(key: K, now: int) returns (hit: Option<V>)
      requires Separate()
      modifies lru, lru.list, lru.list.root, lru.list.repr
      ensures Separate() && View().fifo == old(View().fifo)
      ensures View().lru == LruSpec.Get(old(View().lru), key, now).0
      ensures hit == LruSpec.Get(old(View().lru), key, now).1
      ensures fifoQueue.nodes == old(fifoQueue.nodes) && lru.list.repr == old(lru.list.repr)
    {
      hit := lru.Get(key, now);
      assert fifoQueue.Valid();
    }

    method Get(key: K, now: int) returns (r: Option<V>)
      requires Valid()
      modifies lru, lru.list, lru.list.root, lru.list.repr, fifoQueue, fifoQueue.root, fifoQueue.repr
      ensures Valid()
      ensures (View(), r) == Get2Q(old(View()), lru.capacity, expiration, key, now)
    {
      StepKeepsInv(View(), lru.capacity, expiration, Get2(key, now));
      r := GetLocked(key, now);
    }

    method GetLocked(key: K, now: int) returns (r: Option<V>)
      requires Separate()
      modifies lru, lru.list, lru.list.root, lru.list.repr, fifoQueue, fifoQueue.root, fifoQueue.repr
      ensures Separate()
      ensures View() == Get2Q(old(View()), lru.capacity, expiration, key, now).0
      ensures r == Get2Q(old(View()), lru.capacity, expiration, key, now).1
    {
      r := Recall(key, now);
      if r.None? {
        r := GetUnlessLive(key, now);
      }
    }

    /** The rest of a lookup once the LRU lookup has missed. */
    method GetUnlessLive(key: K, now: int) returns (r: Option<V>)
      requires Separate()
      modifies lru, lru.list, lru.list.root, lru.list.repr, fifoQueue, fifoQueue.root, fifoQueue.repr
      ensures Separate()
      ensures var s, i := old(View()), Find(old(View()).fifo, key);
              if i == |s.fifo| then View() == s && r == None
              else
                && View().fifo == Without(s.fifo, key)
                && if !Alive(s.fifo[i].expireAt, now) then View().lru == s.lru && r == None
                   else
                     && r == Some(s.fifo[i].value)
                     && View().lru == LruSpec.Put(s.lru, lru.capacity, key, s.fifo[i].value, Deadline(expiration, now))
    {
      var cursor := Seek(key);
      if cursor == null {
        return None;
      }
      assert fifoQueue.Holds(Find(fifoQueue.values, key));
      var entry := cursor.value;
      if entry.expireAt > 0 && now >= entry.expireAt {
        Discard(cursor, key);
        return None;
      }
      var expireAt := 0;
      if expiration > 0 {
        expireAt := now + expiration;
      }
      assert expireAt == Deadline(expiration, now);
      Promote(cursor, key, entry.value, expireAt);
      return Some(entry.value);
    }

    /** Drops the FIFO node `cursor`, which holds this key. */
    method Discard(cursor: Node<Entry<K, V>>, key: K)
      requires Separate() && Has(fifoQueue.values, key) && cursor == fifoQueue.nodes[Find(fifoQueue.values, key)]
      modifies fifoQueue, fifoQueue.root, fifoQueue.repr
      ensures Separate() && View() == State(old(View().lru), Without(old(View().fifo), key))
      ensures fifoQueue.repr == old(fifoQueue.repr)
    {
      fifoQueue.Remove(cursor, Find(fifoQueue.values, key));
      assert lru.Valid();
    }

    method Remove(key: K)
      requires Valid()
      modifies lru, lru.list, lru.list.root, lru.list.repr, fifoQueue, fifoQueue.root, fifoQueue.repr
      ensures Valid()
      ensures View() == Remove2Q(old(View()), key)
    {
      StepKeepsInv(View(), lru.capacity, expiration, Remove2(key));
      lru.Remove(key);
      assert fifoQueue.Valid();
      var cursor := Seek(key);
      if cursor != null {
        Discard(cursor, key);
      }
    }
  }
}
