/** The sorted map of `common/container/sorted_map.go`: a hash map and, beside it, a singly
    linked list of its keys in ascending order. The loops over the list are bounded by the
    size the map has after it was changed. */
module SortedMaps {
  import opened Seqs

  ghost predicate TotalOrder<K(!new)>(le: (K, K) -> bool) {
    && (forall a, b :: le(a, b) || le(b, a))
    && (forall a, b :: le(a, b) && le(b, a) ==> a == b)
    && (forall a, b, c :: le(a, b) && le(b, c) ==> le(a, c))
  }

  ghost predicate Ascending<K>(le: (K, K) -> bool, s: seq<K>) {
    forall i, j :: 0 <= i < j < |s| ==> le(s[i], s[j]) && s[i] != s[j]
  }

  lemma NonEmptyHasOne<K>(s: seq<K>)
    ensures s != [] ==> exists k :: k in s
  {
    if s != [] {
      assert s[0] in s;
    }
  }

  /** There is only one way to list a set of keys in strictly ascending order, so a list that
      is ascending and has the keys of the map is determined by the map. */
  lemma {:induction false} AscendingListIsUnique<K(!new)>(le: (K, K) -> bool, s: seq<K>, t: seq<K>)
    requires TotalOrder(le) && Ascending(le, s) && Ascending(le, t)
    requires forall k :: k in s <==> k in t
    ensures s == t
  {
    if s == [] {
      NonEmptyHasOne(t);
    } else {
      assert s[0] in t && t[0] in s;
      var i :| 0 <= i < |t| && t[i] == s[0];
      var j :| 0 <= j < |s| && s[j] == t[0];
      assert s[0] == t[0];
      forall k
        ensures k in s[1..] <==> k in t[1..]
      {
        assert k in s[1..] ==> k in s && k != s[0];
        assert k in t[1..] ==> k in t && k != t[0];
      }
      AscendingListIsUnique(le, s[1..], t[1..]);
    }
  }

  lemma InsertedAscends<K(!new)>(le: (K, K) -> bool, s: seq<K>, p: nat, x: K)
    requires TotalOrder(le) && Ascending(le, s) && p <= |s|
    requires p > 0 ==> le(s[p - 1], x) && s[p - 1] != x
    requires p < |s| ==> le(x, s[p]) && s[p] != x
    ensures Ascending(le, Inserted(s, p, x))
  {
    forall i | 0 <= i < p
      ensures le(s[i], x) && s[i] != x
    {
      assert i < p - 1 ==> le(s[i], s[p - 1]);
    }
    forall i | p <= i < |s|
      ensures le(x, s[i]) && s[i] != x
    {
      assert p < i ==> le(s[p], s[i]);
    }
  }

  lemma KeptByInserted<K>(s: seq<K>, p: nat, x: K, k: K)
    requires p <= |s|
    ensures k in Inserted(s, p, x) <==> k in s || k == x
  {
    var r := Inserted(s, p, x);
    assert r[p] == x;
    if k in s {
      var i :| 0 <= i < |s| && s[i] == k;
      assert r[if i < p then i else i + 1] == k;
    }
  }

  lemma KeptByCut<K>(s: seq<K>, p: nat, k: K)
    requires p < |s| && forall i :: 0 <= i < |s| && i != p ==> s[i] != s[p]
    ensures k in Cut(s, p) <==> k in s && k != s[p]
  {
    var r := Cut(s, p);
    if k in s && k != s[p] {
      var i :| 0 <= i < |s| && s[i] == k;
      assert r[if i < p then i else i - 1] == k;
    }
  }

  class KeyElement<K> {
    const key: K
    var next: KeyElement?<K>

    constructor (key: K)
      ensures this.key == key && next == null
    {
      this.key, next := key, null;
    }
  }

  class SortedMap<K(==,!new), V> {
    const le: (K, K) -> bool
    var mapElements: map<K, V>
    var ptrHead: KeyElement?<K>
    ghost var nodes: seq<KeyElement<K>>
    ghost var keys: seq<K>
    ghost var repr: set<KeyElement<K>>

    ghost predicate Valid()
      reads this, repr
    {
      && TotalOrder(le) && Chain() && |keys| == |mapElements|
      && (forall k :: k in mapElements <==> k in keys)
    }

    /** The nodes from `ptrHead` on carry `keys`, in ascending order. */
    ghost predicate Chain()
      reads `ptrHead, `nodes, `keys, `repr, repr
    {
      && Ascending(le, keys) && |keys| == |nodes| && ptrHead == At(0)
      && forall i :: 0 <= i < |nodes| ==> Linked(i)
    }

    ghost function At(i: nat): KeyElement?<K>
      reads `nodes
    {
      if i < |nodes| then nodes[i] else null
    }

    ghost predicate Linked(i: nat)
      requires i < |nodes| == |keys|
      reads `nodes, `keys, `repr, repr
    {
      nodes[i] in repr && nodes[i].key == keys[i] && nodes[i].next == At(i + 1)
    }

    lemma Links()
      requires Chain()
      ensures forall i :: 0 <= i < |nodes| ==>
                nodes[i] in repr && nodes[i].key == keys[i] && nodes[i].next == At(i + 1)
    {
      forall i | 0 <= i < |nodes|
        ensures nodes[i] in repr && nodes[i].key == keys[i] && nodes[i].next == At(i + 1)
      {
        assert Linked(i);
      }
    }

    constructor (le: (K, K) -> bool)
      requires TotalOrder(le)
      ensures Valid() && mapElements == map[] && fresh(repr) && this.le == le
    {
      this.le := le;
      mapElements, ptrHead, nodes, keys, repr := map[], null, [], [], {};
    }

    function Size(): nat
      reads this
    {
      |mapElements|
    }

    method Clear()
      requires Valid()
      modifies this
      ensures Valid() && mapElements == map[]
    {
      mapElements, ptrHead, nodes, keys := map[], null, [], [];
    }

    method Find(key: K) returns (found: KeyElement?<K>)
      requires Valid()
      ensures if key in mapElements then found != null && found in nodes && found.key == key else found == null
    {
      var cursor := ptrHead;
      if cursor == null {
        return null;
      }
      for i := 0 to Size()
        invariant cursor == At(i) && key !in keys[..i]
      {
        assert Linked(i);
        if cursor.key == key {
          return cursor;
        }
        cursor := cursor.next;
      }
      return null;
    }

    method Insert(key: K, val: V)
      requires Valid()
      modifies this, repr
      ensures Valid() && fresh(repr - old(repr))
      ensures mapElements == old(mapElements)[key := val]
    {
      var ok := key in mapElements;
      mapElements := mapElements[key := val];
      if !ok {
        ghost var p := InsertKey(key);
        forall k
          ensures k in keys <==> k in old(keys) || k == key
        {
          KeptByInserted(old(keys), p, key, k);
        }
      }
    }

    /** Links in a new key, after the map has already taken it. */
    method InsertKey(key: K) returns (ghost p: nat)
      requires TotalOrder(le) && Chain() && key !in keys && |mapElements| == |keys| + 1
      modifies `ptrHead, `nodes, `keys, `repr, repr
      ensures Chain() && fresh(repr - old(repr))
      ensures p <= |old(keys)| && keys == Inserted(old(keys), p, key)
    {
      Links();
      var newElem := new KeyElement(key);
      var cursor := ptrHead;
      if cursor == null {
        ptrHead := newElem;
        p := 0;
        Splice(p, newElem);
        return;
      }
      assert Linked(0);
      if le(key, cursor.key) {
        newElem.next := cursor;
        ptrHead := newElem;
        p := 0;
        Splice(p, newElem);
        return;
      }
      var i := 0;
      p := 1;
      while i < Size()
        invariant p == i + 1 <= |nodes| && cursor == nodes[i] && !le(key, keys[i])
        invariant unchanged(repr) && unchanged(`ptrHead, `nodes, `keys, `repr)
      {
        assert Linked(i);
        if cursor.next == null {
          LinkAfter(cursor, newElem, i);
          break;
        }
        assert Linked(p);
        if le(key, cursor.next.key) {
          newElem.next := cursor.next;
          LinkAfter(cursor, newElem, i);
          break;
        }
        cursor := cursor.next;
        i := i + 1;
        p := i + 1;
      }
    }

    method LinkAfter(cursor: KeyElement<K>, e: KeyElement<K>, ghost i: nat)
      requires TotalOrder(le) && Chain() && e !in repr && i < |nodes| && cursor == nodes[i] && e.next == cursor.next
      requires !le(e.key, keys[i]) && (i + 1 < |keys| ==> le(e.key, keys[i + 1]) && e.key != keys[i + 1])
      modifies `nodes, `keys, `repr, cursor`next
      ensures Chain() && keys == Inserted(old(keys), i + 1, e.key) && repr == old(repr) + {e}
    {
      Links();
      cursor.next := e;
      ghost var p := i + 1;
      Splice(p, e);
    }

    /** Records that `e` has been linked in at position `p`. */
    ghost method Splice(p: nat, e: KeyElement<K>)
      requires TotalOrder(le) && Ascending(le, keys) && p <= |nodes| == |keys| && e !in repr
      requires p > 0 ==> le(keys[p - 1], e.key) && keys[p - 1] != e.key
      requires p < |keys| ==> le(e.key, keys[p]) && keys[p] != e.key
      requires p == 0 ==> ptrHead == e
      requires p > 0 ==> ptrHead == At(0)
      requires forall i :: 0 <= i < |nodes| ==>
                 nodes[i] in repr && nodes[i].key == keys[i] && nodes[i].next == if i + 1 == p then e else At(i + 1)
      requires e.next == At(p)
      modifies `nodes, `keys, `repr
      ensures Chain() && keys == Inserted(old(keys), p, e.key) && repr == old(repr) + {e}
    {
      InsertedAscends(le, keys, p, e.key);
      nodes, keys, repr := Inserted(nodes, p, e), Inserted(keys, p, e.key), repr + {e};
      forall i | 0 <= i < |nodes|
        ensures Linked(i)
      {
      }
    }

    method Delete(key: K)
      requires Valid()
      modifies this, repr
      ensures Valid() && repr == old(repr)
      ensures mapElements == old(mapElements) - {key}
    {
      if key in mapElements {
        mapElements := mapElements - {key};
        ghost var p := DeleteKey(key);
        forall k
          ensures k in keys <==> k in old(keys) && k != key
        {
          KeptByCut(old(keys), p, k);
        }
      }
    }

    /** Unlinks a key, after the map has already dropped it. */
    method DeleteKey(key: K) returns (ghost p: nat)
      requires Chain() && key in keys && |mapElements| == |keys| - 1
      modifies `ptrHead, `nodes, `keys, repr
      ensures Chain()
      ensures p < |old(keys)| && old(keys)[p] == key && keys == Cut(old(keys), p)
    {
      Links();
      var cursor := ptrHead;
      p := 0;
      if cursor == null {
        return;
      }
      assert Linked(0);
      if cursor.key == key {
        ptrHead := cursor.next;
        Unsplice(0);
        return;
      }
      var i := 0;
      p := 1;
      while i < Size()
        invariant p == i + 1 <= |nodes| && cursor == nodes[i] && key !in keys[..p]
        invariant unchanged(repr) && unchanged(`ptrHead, `nodes, `keys)
      {
        assert Linked(i);
        if cursor.next == null {
          break;
        }
        assert Linked(p);
        if cursor.next.key == key {
          cursor.next := cursor.next.next;
          Unsplice(p);
          break;
        }
        cursor := cursor.next;
        i := i + 1;
        p := i + 1;
      }
    }

    /** Records that the node at position `p` has been unlinked. */
    ghost method Unsplice(p: nat)
      requires Ascending(le, keys) && p < |nodes| == |keys|
      requires ptrHead == if p == 0 then At(1) else At(0)
      requires forall i :: 0 <= i < |nodes| && i != p ==>
                 nodes[i] in repr && nodes[i].key == keys[i] && nodes[i].next == At(if i + 1 == p then i + 2 else i + 1)
      modifies `nodes, `keys
      ensures Chain() && keys == Cut(old(keys), p)
    {
      nodes, keys := Cut(nodes, p), Cut(keys, p);
      forall i | 0 <= i < |nodes|
        ensures Linked(i)
      {
      }
    }
  }
}
