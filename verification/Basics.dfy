/** What several modules need. */
module Basics {

  datatype Option<+T> = None | Some(value: T)

  type Byte = bv8

  lemma SubsetIsSmaller<T>(a: set<T>, b: set<T>)
    requires a <= b
    ensures |a| <= |b| && (|a| == |b| ==> a == b)
  {
    assert b == a + (b - a);
    assert |b| == |a| + |b - a|;
  }

  /** Batches, one after the other. */
  function Flattened<T>(batches: seq<seq<T>>): seq<T> {
    if batches == [] then [] else batches[0] + Flattened(batches[1..])
  }

  /** The next batch comes behind what is there. */
  lemma NextBatch<T>(queue: seq<T>, batches: seq<seq<T>>, i: nat)
    requires i < |batches|
    ensures queue + Flattened(batches[i..]) == (queue + batches[i]) + Flattened(batches[i + 1..])
  {
    assert batches[i..][1..] == batches[i + 1..];
  }
}
