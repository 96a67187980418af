/** The LRU cache of `common/container/lru_cache.go`: a hash index over the linked list. */
module LruCaches {
  import opened Basics
  import opened Seqs
  import opened LruSpec
  import opened LinkedLists

  const DEFAULT_LRU_CACHE_CAPACITY := 1000

  /** The index maps exactly the keys of `s`, each to the node in its position. */
  ghost predicate Indexed<K(0,!new), V(0)>(
      nodes: seq<Node<Entry<K, V>>>, s: seq<Entry<K, V>>, index: map<K, Node<Entry<K, V>>>)
  {
    && |nodes| == |s| == |index|
    && (forall i :: 0 <= i < |s| ==> s[i].key in index && index[s[i].key] == nodes[i])
  }

  lemma IndexedHas<K(0,!new), V(0)>(
      nodes: seq<Node<Entry<K, V>>>, s: seq<Entry<K, V>>, index: map<K, Node<Entry<K, V>>>, k: K)
    requires Distinct(s) && Indexed(nodes, s, index)
    ensures k in index <==> Has(s, k)
  {
    var keys := set i | 0 <= i < |s| :: s[i].key;
    assert keys <= index.Keys;
    assert forall i :: 0 <= i < |s| ==> s[i].key in keys;
    Pigeonhole(s, |s|, keys);
    SubsetIsSmaller(keys, index.Keys);
    assert |index.Keys| == |index|;
  }

  lemma IndexedWithout<K(0,!new), V(0)>(
      nodes: seq<Node<Entry<K, V>>>, s: seq<Entry<K, V>>, index: map<K, Node<Entry<K, V>>>, k: K)
    requires Distinct(s) && Indexed(nodes, s, index) && Has(s, k)
    ensures var i := Find(s, k); Indexed(Cut(nodes, i), Without(s, k), index - {k})
  {
    var index' := index - {k};
    FindWithout(s, k, k);
    assert index'.Keys == index.Keys - {k} && |index'.Keys| == |index'|;
    assert |index.Keys| == |index|;
  }

  lemma IndexedInFront<K(0,!new), V(0)>(
      nodes: seq<Node<Entry<K, V>>>, s: seq<Entry<K, V>>, index: map<K, Node<Entry<K, V>>>,
      e: Entry<K, V>, n: Node<Entry<K, V>>)
    requires Distinct(s) && Indexed(nodes, s, index) && !Has(s, e.key)
    ensures Indexed([n] + nodes, [e] + s, index[e.key := n])
  {
    IndexedHas(nodes, s, index, e.key);
    var r := [e] + s;
    assert forall j :: 0 < j < |r| ==> r[j] == s[j - 1] && s[j - 1].key != e.key;
  }

  lemma IndexedUpdated<K(0,!new), V(0)>(
      nodes: seq<Node<Entry<K, V>>>, s: seq<Entry<K, V>>, index: map<K, Node<Entry<K, V>>>, e: Entry<K, V>)
    requires Distinct(s) && Indexed(nodes, s, index) && Has(s, e.key)
    ensures var s' := s[Find(s, e.key) := e];
            && Distinct(s') && Indexed(nodes, s', index)
            && Lookup(s', e.key) == Some(e) && Without(s', e.key) == Without(s, e.key)
  {
    var i := Find(s, e.key);
    var s' := s[i := e];
    assert forall j :: 0 <= j < |s| ==> s'[j].key == s[j].key;
    FindIs(s', e.key, i);
    CutUpdated(s, i, e);
  }

  lemma FindToFront<K, V>(s: seq<Entry<K, V>>, k: K)
    requires Distinct(s) && Has(s, k)
    ensures Distinct(ToFront(s, Find(s, k)))
  {
    FindWithout(s, k, k);
    FindInFront(Without(s, k), s[Find(s, k)], k);
  }

  class LruCache<K(==,0,!new), V(0)> {
    const list: List<Entry<K, V>>
    var indexMap: map<K, Node<Entry<K, V>>>
    const capacity: int

    ghost predicate Valid()
      reads this, list, list.root, list.repr
      ensures Valid() ==> capacity > 0
    {
      list.Valid() && 0 < capacity && list.len <= capacity && Indexed(list.nodes, list.values, indexMap)
    }

    lemma EntriesAreValid()
      requires Valid()
      ensures LruSpec.Valid(Entries(), capacity)
    {
      list.NodesDiffer();
    }

    /** What the cache holds, most recently used first. */
    ghost function Entries(): seq<Entry<K, V>>
      reads this, list
    {
      list.values
    }

    constructor (capacity: int)
      ensures Valid() && Entries() == [] && fresh(list) && fresh(list.root) && list.repr == {}
      ensures this.capacity == if capacity <= 0 then 1000 else capacity
    {
      this.capacity := if capacity <= 0 then DEFAULT_LRU_CACHE_CAPACITY else capacity;
      list := new List();
      indexMap := map[];
    }

    method Put(key: K, val: V, expireAt: int)
      requires Valid()
      modifies this, list, list.root, list.repr
      ensures Valid() && fresh(list.repr - old(list.repr))
      ensures Entries() == LruSpec.Put(old(Entries()), capacity, key, val, expireAt)
    {
      EntriesAreValid();
      IndexedHas(list.nodes, list.values, indexMap, key);
      if key in indexMap {
        Renew(Entry(key, val, expireAt));
        return;
      }
      MakeRoom();
      assert key !in indexMap;
      Insert(Entry(key, val, expireAt));
    }

    /** Drops the last entry of a full cache. */
    method MakeRoom()
      requires Valid()
      modifies this, list, list.root, list.repr
      ensures Valid() && list.repr == old(list.repr) && list.len < capacity
      ensures indexMap.Keys <= old(indexMap.Keys)
      ensures Entries() == if |old(Entries())| >= capacity then old(Entries())[..|old(Entries())| - 1]
                           else old(Entries())
    {
      if |indexMap| >= capacity {
        var lastElement := list.Back();
        if lastElement != null {
          Evict(lastElement);
        }
      }
    }

    /** Overwrites the entry of an indexed key and moves its node to the front. */
    method Renew(entry: Entry<K, V>)
      requires Valid() && entry.key in indexMap
      modifies list, list.root, list.repr
      ensures Valid() && list.repr == old(list.repr)
      ensures Entries() == [entry] + Without(old(Entries()), entry.key)
    {
      Refresh(entry.key, entry);
      Promote(entry.key);
    }

    method Refresh(key: K, entry: Entry<K, V>)
      requires Valid() && key in indexMap && entry.key == key
      modifies list`values, list.repr
      ensures Valid() && Has(Entries(), key) && Lookup(Entries(), key) == Some(entry)
      ensures Without(Entries(), key) == Without(old(Entries()), key)
    {
      ghost var i := Find(list.values, key);
      EntriesAreValid();
      IndexedHas(list.nodes, list.values, indexMap, key);
      IndexedUpdated(list.nodes, list.values, indexMap, entry);
      var element := indexMap[key];
      list.SetValue(element, entry, i);
    }

    method Insert(entry: Entry<K, V>)
      requires Valid() && entry.key !in indexMap && list.len < capacity
      modifies this, list, list.root, list.repr
      ensures Valid() && fresh(list.repr - old(list.repr))
      ensures Entries() == [entry] + old(Entries())
    {
      ghost var nodes, values := list.nodes, list.values;
      EntriesAreValid();
      IndexedHas(nodes, values, indexMap, entry.key);
      var element := list.PushFront(entry);
      indexMap := indexMap[entry.key := element];
      IndexedInFront(nodes, values, old(indexMap), entry, element);
      FindInFront(values, entry, entry.key);
    }

    method Get(key: K, now: int) returns (r: Option<V>)
      requires Valid()
      modifies this, list, list.root, list.repr
      ensures Valid() && list.repr == old(list.repr)
      ensures Entries() == LruSpec.Get(old(Entries()), key, now).0
      ensures r == LruSpec.Get(old(Entries()), key, now).1
    {
      EntriesAreValid();
      IndexedHas(list.nodes, list.values, indexMap, key);
      if key in indexMap {
        var element := indexMap[key];
        assert list.Holds(Find(list.values, key));
        var entry := element.value;
        if Alive(entry.expireAt, now) {
          Promote(key);
          return Some(entry.value);
        }
        Delete(key);
      }
      r := None;
    }

    method Remove(key: K)
      requires Valid()
      modifies this, list, list.root, list.repr
      ensures Valid() && list.repr == old(list.repr)
      ensures Entries() == Without(old(Entries()), key)
    {
      EntriesAreValid();
      IndexedHas(list.nodes, list.values, indexMap, key);
      if key in indexMap {
        Delete(key);
      }
    }

    /** Moves the node of an indexed key to the front. */
    method Promote(key: K)
      requires Valid() && Has(Entries(), key)
      modifies list, list.root, list.repr
      ensures Valid() && list.repr == old(list.repr)
      ensures Entries() == [old(Entries())[Find(old(Entries()), key)]] + Without(old(Entries()), key)
    {
      ghost var i := Find(list.values, key);
      EntriesAreValid();
      FindToFront(list.values, key);
      var element := indexMap[key];
      list.MoveToFront(element, i);
    }

    /** Drops the entry at the back. */
    method Evict(lastElement: Node<Entry<K, V>>)
      requires Valid() && list.nodes != [] && lastElement == list.nodes[list.len - 1]
      modifies this, list, list.root, list.repr
      ensures Valid() && Entries() == old(Entries())[..|old(Entries())| - 1]
      ensures list.repr == old(list.repr)
      ensures indexMap.Keys <= old(indexMap.Keys)
    {
      EntriesAreValid();
      ghost var n := |list.values| - 1;
      assert list.Holds(n);
      FindIs(list.values, lastElement.value.key, n);
      CutLast(list.values);
      Delete(lastElement.value.key);
    }

    /** Takes the entry of an indexed key out of the index and the list. */
    method Delete(key: K)
      requires Valid() && key in indexMap
      modifies this, list, list.root, list.repr
      ensures Valid() && list.repr == old(list.repr)
      ensures Entries() == Without(old(Entries()), key) && indexMap == old(indexMap) - {key}
    {
      EntriesAreValid();
      IndexedHas(list.nodes, list.values, indexMap, key);
      IndexedWithout(list.nodes, list.values, indexMap, key);
      var element := indexMap[key];
      indexMap := indexMap - {key};
      list.Remove(element, Find(list.values, key));
    }
  }
}
