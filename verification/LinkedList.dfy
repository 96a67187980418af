/** The doubly linked list of Go's `container/list`, which the caches of
    `common/container/lru_cache.go` are built on: a ring closed by a sentinel. */
module LinkedLists {
  import opened Seqs

  class Node<T(0)> {
    var value: T
    var next: Node?<T>
    var prev: Node?<T>

    constructor Sentinel()
      ensures next == this && prev == this
    {
      next, prev, value := this, this, *;
    }

    constructor (value: T)
      ensures this.value == value && next == prev == null
    {
      this.value, next, prev := value, null, null;
    }
  }

  class List<T(0)> {
    const root: Node<T>
    var len: nat
    ghost var nodes: seq<Node<T>>  // front to back, without the sentinel
    ghost var values: seq<T>       // what they hold
    ghost var repr: set<Node<T>>   // every node that ever was in the list

    ghost predicate Valid()
      reads this, root, repr
    {
      && |nodes| == |values| == len && root !in repr
      && (forall i :: 0 <= i < len ==> nodes[i] in repr)
      && (forall i, j :: 0 <= i < j < len ==> At(i) != At(j))
      && root.next == At(0) && root.prev == At(len - 1)
      && (forall i :: 0 <= i < len ==> Linked(i))
      && (forall i :: 0 <= i < len ==> Holds(i))
    }

    /** The node in position `i`; the sentinel lies before the first and after the last. */
    ghost function At(i: int): Node<T>
      reads this
    {
      if 0 <= i < |nodes| then nodes[i] else root
    }

    ghost predicate Linked(i: nat)
      requires i < |nodes| && nodes[i] in repr
      reads this, repr
    {
      nodes[i].next == At(i + 1) && nodes[i].prev == At(i - 1)
    }

    ghost predicate Holds(i: nat)
      requires i < |nodes| == |values| && nodes[i] in repr
      reads this, repr
    {
      nodes[i].value == values[i]
    }

    lemma NodesDiffer()
      requires Valid()
      ensures forall i, j :: 0 <= i < j < len ==> nodes[i] != nodes[j]
    {
      forall i, j | 0 <= i < j < len
        ensures nodes[i] != nodes[j]
      {
        assert At(i) != At(j);
      }
    }

    constructor ()
      ensures Valid() && nodes == [] && values == [] && repr == {} && fresh(root)
    {
      root := new Node.Sentinel();
      len, nodes, values, repr := 0, [], [], {};
    }

    method Front() returns (e: Node?<T>)
      requires Valid()
      ensures if nodes == [] then e == null else e == nodes[0]
    {
      if len == 0 {
        return null;
      }
      return root.next;
    }

    method Back() returns (e: Node?<T>)
      requires Valid()
      ensures if nodes == [] then e == null else e == nodes[len - 1]
    {
      if len == 0 {
        return null;
      }
      return root.prev;
    }

    method Next(e: Node<T>, ghost i: nat) returns (n: Node?<T>)
      requires Valid() && i < len && e == nodes[i]
      ensures if i + 1 < len then n == nodes[i + 1] else n == null
    {
      assert Linked(i);
      n := e.next;
      if n == root {
        n := null;
      }
    }

    method PushFront(value: T) returns (e: Node<T>)
      requires Valid()
      modifies this, root, repr
      ensures Valid() && fresh(e) && repr == old(repr) + {e}
      ensures nodes == [e] + old(nodes) && values == [value] + old(values)
    {
      e := new Node(value);
      LinkFront(e);
    }

    method Remove(e: Node<T>, ghost i: nat)
      requires Valid() && i < len && e == nodes[i]
      modifies this, root, repr
      ensures Valid() && nodes == Cut(old(nodes), i) && values == Cut(old(values), i)
      ensures repr == old(repr)
    {
      Unlink(e, i);
      label Unlinked:
      e.next := null;
      e.prev := null;
      forall j | 0 <= j < len
        ensures Linked(j) && Holds(j)
      {
        assert nodes[j] in nodes && old@Unlinked(Linked(j) && Holds(j));
      }
    }

    method MoveToFront(e: Node<T>, ghost i: nat)
      requires Valid() && i < len && e == nodes[i]
      modifies this, root, repr
      ensures Valid() && nodes == ToFront(old(nodes), i) && values == ToFront(old(values), i)
      ensures repr == old(repr)
    {
      if root.next == e {
        NodesDiffer();
        assert i == 0;
        CutFirst(nodes);
        CutFirst(values);
        return;
      }
      assert Holds(i);
      ghost var value := values[i];
      Unlink(e, i);
      assert e.value == value;
      LinkFront(e);
    }

    method LinkFront(e: Node<T>)
      requires Valid() && e != root && e !in nodes
      modifies this, root`next, root`prev, repr`next, repr`prev, e`next, e`prev
      ensures Valid() && nodes == [e] + old(nodes) && values == [e.value] + old(values)
      ensures repr == old(repr) + {e}
    {
      NodesDiffer();
      e.prev := root;
      e.next := root.next;
      e.prev.next := e;
      e.next.prev := e;
      len := len + 1;
      nodes, values, repr := [e] + nodes, [e.value] + values, repr + {e};
      forall j | 0 <= j < len
        ensures Linked(j)
      {
        assert j > 0 ==> old(Linked(j - 1));
      }
      forall j | 0 <= j < len
        ensures Holds(j)
      {
        assert j > 0 ==> old(Holds(j - 1));
      }
    }

    method Unlink(e: Node<T>, ghost i: nat)
      requires Valid() && i < len && e == nodes[i]
      modifies this, root`next, root`prev, repr`next, repr`prev
      ensures Valid() && nodes == Cut(old(nodes), i) && values == Cut(old(values), i)
      ensures e !in nodes && repr == old(repr)
    {
      NodesDiffer();
      assert Linked(i);
      e.prev.next := e.next;
      e.next.prev := e.prev;
      len := len - 1;
      nodes, values := Cut(nodes, i), Cut(values, i);
      forall j | 0 <= j < len
        ensures Linked(j)
      {
        assert old(Linked(i)) && old(Linked(if j < i then j else j + 1));
      }
      forall j | 0 <= j < len
        ensures Holds(j)
      {
        assert old(Holds(if j < i then j else j + 1));
      }
    }

    method SetValue(e: Node<T>, value: T, ghost i: nat)
      requires Valid() && i < len && e == nodes[i]
      modifies this`values, e`value
      ensures Valid() && values == old(values)[i := value]
    {
      NodesDiffer();
      e.value := value;
      values := values[i := value];
      forall j | 0 <= j < len
        ensures Linked(j) && Holds(j)
      {
        assert old(Linked(j)) && old(Holds(j));
      }
    }
  }
}
