// The k-d tree object of the particle filter: a histogram of poses by cell, kept up to date by
// insertion, and its clustering into groups of adjacent cells.
module HistogramTree {
  import opened Options
  import opened Clusters
  import opened KdTree
  import opened Squares

  datatype Entry = Entry(key: Key, value: real)

  // What a list of insertions adds up to for one key; None if the key was never inserted.
  function SumOf(inserted: seq<Entry>, k: Key): Option<real> {
    if inserted == [] then None
    else
      var before, e := SumOf(inserted[..|inserted| - 1], k), inserted[|inserted| - 1];
      if e.key != k then before
      else match before case None => Some(e.value) case Some(w) => Some(w + e.value)
  }

  function Keys(inserted: seq<Entry>): set<Key> {
    set e | e in inserted :: e.key
  }

  lemma {:induction false} SumOfDefined(inserted: seq<Entry>, k: Key)
    ensures SumOf(inserted, k).Some? <==> k in Keys(inserted)
  {
    if inserted != [] {
      var before, e := inserted[..|inserted| - 1], inserted[|inserted| - 1];
      SumOfDefined(before, k);
      assert inserted == before + [e];
      assert Keys(inserted) == Keys(before) + {e.key};
    }
  }

  lemma OneMore(inserted: seq<Entry>, e: Entry, k: Key)
    ensures SumOf(inserted + [e], k) == if e.key != k then SumOf(inserted, k)
      else match SumOf(inserted, k) case None => Some(e.value) case Some(w) => Some(w + e.value)
    ensures Keys(inserted + [e]) == Keys(inserted) + {e.key}
  {
    assert (inserted + [e])[..|inserted|] == inserted;
  }

  lemma KeysBound(inserted: seq<Entry>)
    ensures |Keys(inserted)| <= |inserted|
    ensures inserted != [] ==> |Keys(inserted)| > 0
  {
    if inserted != [] {
      var before, e := inserted[..|inserted| - 1], inserted[|inserted| - 1];
      KeysBound(before);
      assert inserted == before + [e];
      OneMore(before, e, e.key);
      assert e.key in Keys(inserted);
      if e.key in Keys(before) { assert Keys(inserted) == Keys(before); }
    }
  }

  // The cell of a pose.
  function CellOf(pose: seq<real>, size: seq<real>): Key
    requires |pose| == 3 && |size| == 3 && forall d :: 0 <= d < 3 ==> size[d] > 0.0
  {
    [(pose[0] / size[0]).Floor, (pose[1] / size[1]).Floor, (pose[2] / size[2]).Floor]
  }

  // A pose lies in the box of a cell.
  ghost predicate InCell(pose: seq<real>, size: seq<real>, k: Key)
    requires |pose| == 3 && |size| == 3
  {
    forall d :: 0 <= d < 3 ==> InSquare(pose[d], size[d], k[d])
  }

  /** The cell of a pose is the one whose box it lies in; every pose lies in just one. */
  lemma CellIs(pose: seq<real>, size: seq<real>, k: Key)
    requires |pose| == 3 && |size| == 3 && forall d :: 0 <= d < 3 ==> size[d] > 0.0
    ensures CellOf(pose, size) == k <==> InCell(pose, size, k)
  {
    hide InSquare;
    SquareOf(pose[0], size[0]);
    SquareOf(pose[1], size[1]);
    SquareOf(pose[2], size[2]);
    assert k == [k[0], k[1], k[2]];
  }

  /**
   * Each inserted key has one leaf with the sum of its values, no other key has any, and a
   * tree of so many leaves has one inner node less.
   */
  ghost predicate Represents(nodes: seq<Node>, leafCount: nat, inserted: seq<Entry>) {
    && WellFormed(nodes) && Inv(nodes)
    && (nodes == [] <==> inserted == [])
    && leafCount == |Keys(inserted)|
    && (nodes != [] ==> |nodes| == 2 * leafCount - 1)
    && (forall k :: Weight(nodes, k) == SumOf(inserted, k))
  }

  lemma FirstRepresents(e: Entry)
    ensures Represents([Leaf(0, e.key, e.value)], 1, [e])
  {
    var nodes := [Leaf(0, e.key, e.value)];
    assert [] + [e] == [e];
    forall k ensures Weight(nodes, k) == SumOf([e], k) {
      OneMore([], e, k);
    }
    assert Keys([e]) == {e.key};
  }

  lemma MoreWeights(nodes: seq<Node>, inserted: seq<Entry>, e: Entry)
    requires WellFormed(nodes) && Inv(nodes) && nodes != [] && forall k :: Weight(nodes, k) == SumOf(inserted, k)
    ensures var after := Inserted(nodes, Route(nodes, 0, e.key), e.key, e.value);
      WellFormed(after) && forall k :: Weight(after, k) == SumOf(inserted + [e], k)
  {
    hide Inserted, Route, Inv, Weight, SumOf;
    var after := Inserted(nodes, Route(nodes, 0, e.key), e.key, e.value);
    InsertAddsWeight(nodes, e.key, e.value, e.key);
    forall k ensures Weight(after, k) == SumOf(inserted + [e], k) {
      OneMore(inserted, e, k);
      InsertAddsWeight(nodes, e.key, e.value, k);
    }
  }

  lemma MoreRepresents(nodes: seq<Node>, leafCount: nat, inserted: seq<Entry>, e: Entry)
    requires Represents(nodes, leafCount, inserted) && nodes != []
    ensures var after := Inserted(nodes, Route(nodes, 0, e.key), e.key, e.value);
      Represents(after, leafCount + (if |after| == |nodes| then 0 else 1), inserted + [e])
  {
    hide Inserted, Route, Inv, Weight, SumOf;
    InsertGrows(nodes, e.key, e.value);
    InsertKeepsInv(nodes, e.key, e.value);
    SumOfDefined(inserted, e.key);
    OneMore(inserted, e, e.key);
    MoreWeights(nodes, inserted, e);
    if e.key in Keys(inserted) { assert Keys(inserted + [e]) == Keys(inserted); }
  }

  // The vector grows exactly when the key is new.
  lemma InsertGrows(nodes: seq<Node>, key: Key, value: real)
    requires WellFormed(nodes) && Inv(nodes) && nodes != []
    ensures |Inserted(nodes, Route(nodes, 0, key), key, value)| == |nodes| + (if Weight(nodes, key).Some? then 0 else 2)
  {
    FindIsRoute(nodes, 0, key);
  }

  class ParticleFilterKDTree {
    const size: seq<real>
    const nodeMaxCount: nat
    var nodes: seq<Node>
    var nodeCount: nat
    var leafCount: nat
    ghost var inserted: seq<Entry>

    ghost predicate Valid()
      reads this
    {
      && |size| == 3 && (forall d :: 0 <= d < 3 ==> size[d] > 0.0)
      && nodeCount == |nodes| && Represents(nodes, leafCount, inserted)
    }

    constructor (maxSamples: nat, size: seq<real>)
      requires |size| == 3 && forall d :: 0 <= d < 3 ==> size[d] > 0.0
      ensures Valid() && inserted == [] && nodeMaxCount == 3 * maxSamples && this.size == size
    {
      this.size := size;
      nodeMaxCount := 3 * maxSamples;
      nodes, nodeCount, leafCount, inserted := [], 0, 0, [];
    }

    method Clear()
      requires Valid()
      modifies this
      ensures Valid() && inserted == []
    {
      nodes, nodeCount, leafCount, inserted := [], 0, 0, [];
    }

    // A leaf of its own for a key.
    method NewLeaf(depth: nat, key: Key, value: real) returns (r: nat)
      requires nodeCount == |nodes| < nodeMaxCount
      modifies this`nodes, this`nodeCount, this`leafCount
      ensures r == |old(nodes)| && nodes == old(nodes) + [Leaf(depth, key, value)]
      ensures nodeCount == old(nodeCount) + 1 && leafCount == old(leafCount) + 1
    {
      r := nodeCount;
      nodeCount := nodeCount + 1;
      nodes := nodes + [Leaf(depth, key, value)];
      leafCount := leafCount + 1;
    }

    method InsertNode(n: nat, key: Key, value: real)
      requires WellFormed(nodes) && nodeCount == |nodes| && n < |nodes| && nodeCount + 2 <= nodeMaxCount
        && leafCount > 0
      modifies this`nodes, this`nodeCount, this`leafCount
      ensures nodes == Inserted(old(nodes), Route(old(nodes), n, key), key, value)
      ensures nodeCount == |nodes|
      ensures leafCount == old(leafCount) + (if |nodes| == |old(nodes)| then 0 else 1)
      decreases |nodes| - n
    {
      if nodes[n].leaf {
        if nodes[n].key == key {
          nodes := nodes[n := nodes[n].(value := nodes[n].value + value)];
        } else {
          Split(n, key, value);
        }
      } else {
        InsertNode(Child(nodes[n], key), key, value);
      }
    }

    // One leaf becomes an inner node with a leaf on either side of the pivot.
    method Split(n: nat, key: Key, value: real)
      requires nodeCount == |nodes| && n < |nodes| && nodeCount + 2 <= nodeMaxCount && leafCount > 0
      requires nodes[n].leaf && nodes[n].key != key
      modifies this`nodes, this`nodeCount, this`leafCount
      ensures nodes == Inserted(old(nodes), n, key, value)
      ensures nodeCount == |nodes| == |old(nodes)| + 2 && leafCount == old(leafCount) + 1
    {
      ghost var before := nodes;
      var was := nodes[n];
      var d := SplitDim(key, was.key);
      var p := Pivot(key, was.key, d);
      nodes := nodes[n := was.(pivotDim := d, pivotValue := p)];
      var left, right;
      if key[d] as real < p {
        left := NewLeaf(was.depth + 1, key, value);
        right := NewLeaf(was.depth + 1, was.key, was.value);
      } else {
        left := NewLeaf(was.depth + 1, was.key, was.value);
        right := NewLeaf(was.depth + 1, key, value);
      }
      nodes := nodes[n := nodes[n].(left := left, right := right, leaf := false)];
      leafCount := leafCount - 1;
      assert nodes == Inserted(before, n, key, value);
    }

    /** One more entry in the histogram; there is always room for as many as there are samples. */
    method InsertPose(pose: seq<real>, value: real)
      requires Valid() && |pose| == 3 && 3 * (|inserted| + 1) <= nodeMaxCount
      modifies this
      ensures Valid() && inserted == old(inserted) + [Entry(CellOf(pose, size), value)]
      ensures forall k :: InCell(pose, size, k) <==> k == inserted[|inserted| - 1].key
    {
      hide Represents, Inserted, Route, InCell, CellOf;
      forall k ensures CellOf(pose, size) == k <==> InCell(pose, size, k) { CellIs(pose, size, k); }
      var e := Entry(CellOf(pose, size), value);
      RepresentsSize(nodes, leafCount, inserted);
      if nodes == [] {
        var _ := NewLeaf(0, e.key, value);
        FirstRepresents(e);
        assert nodes == [Leaf(0, e.key, value)];
        assert inserted + [e] == [e];
      } else {
        MoreRepresents(nodes, leafCount, inserted, e);
        InsertNode(0, e.key, value);
      }
      inserted := inserted + [e];
    }

    /** Gives the label of a leaf to everything linked to it that has none yet. */
    method ClusterNode(n: nat, ghost cells: set<Key>)
      requires Inv(nodes) && Labelled(nodes, n) && LeavesOf(nodes, cells)
      requires Consistent(nodes) && OthersClosed(nodes, nodes[n].cluster)
      modifies this`nodes
      ensures Flooded(old(nodes), nodes, n, cells) && Closed(nodes, n) && Inv(nodes)
      ensures Consistent(nodes) && OthersClosed(nodes, old(nodes)[n].cluster)
      decreases Unlabelled(nodes)
    {
      hide Inv, LeavesOf, Consistent, OthersClosed, Flooded, Closed, Flooding, Neighbour, FindNode, WellFormed,
        Unlabelled;
      ghost var before, c := nodes, nodes[n].cluster;
      FloodStarts(nodes, n, cells);
      for i := 0 to 27
        invariant Flooding(before, nodes, n, c, cells, i)
      {
        FloodingHolds(before, nodes, n, c, cells, i);
        var found := FindNode(nodes, 0, Neighbour(nodes[n].key, i));
        if found.Some? && nodes[found.value].cluster < 0 {
          var f := found.value;
          ghost var was := nodes;
          SpreadTo(before, nodes, n, c, cells, i, f);
          nodes := Relabel(nodes, f, nodes[n].cluster);
          ClusterNode(f, cells);
          SpreadBack(before, was, nodes, n, c, cells, i, f);
        } else {
          SpreadSkips(before, nodes, n, c, cells, i);
        }
      }
      FloodEnds(before, nodes, n, c, cells);
    }

    // Removes all labels and lists the leaves.
    method ResetLabels() returns (queue: seq<nat>)
      requires nodeCount == |nodes|
      modifies this`nodes
      ensures SameTree(old(nodes), nodes)
      ensures forall i: nat :: i in queue <==> IsLeaf(nodes, i)
      ensures forall i: nat :: !Labelled(nodes, i)
    {
      queue := [];
      for i := 0 to nodeCount
        invariant SameTree(old(nodes), nodes)
        invariant forall j: nat :: j in queue <==> j < i && IsLeaf(nodes, j)
        invariant forall j: nat :: j < i ==> !Labelled(nodes, j)
      {
        ghost var was := nodes;
        if nodes[i].leaf {
          nodes := Relabel(nodes, i, -1);
          queue := queue + [i];
        }
        assert forall j: nat :: Labelled(nodes, j) ==> Labelled(was, j) && j != i;
      }
    }

    /** Labels every leaf with its cluster. */
    method Cluster() returns (count: nat)
      requires Valid()
      modifies this`nodes
      ensures Valid() && SameTree(old(nodes), nodes)
      ensures Clustered(nodes, count, Keys(inserted))
    {
      hide Represents, Keys, Clustering, Clustered, Inv, LeavesOf, Consistent, OthersClosed, Flooded, Closed, SameTree;
      ghost var cells, before, seeds: seq<nat> := Keys(inserted), nodes, [];
      var queue := ResetLabels();
      ClusteringStarts(before, nodes, queue, leafCount, inserted);
      count := 0;
      while |queue| > 0
        invariant Clustering(before, nodes, queue, seeds, cells) && count == |seeds|
      {
        var n := queue[|queue| - 1];
        ClusteringHolds(before, nodes, queue, seeds, cells, n);
        if nodes[n].cluster < 0 {
          ghost var was := nodes;
          ClusterStarts(before, nodes, queue, seeds, cells, n);
          nodes := Relabel(nodes, n, count);
          count := count + 1;
          ClusterNode(n, cells);
          ClusterEnds(before, was, nodes, queue, seeds, cells);
          seeds := seeds + [n];
        } else {
          ClusterSkips(before, nodes, queue, seeds, cells);
        }
        queue := queue[..|queue| - 1];
      }
      ClusteringDone(before, nodes, seeds, leafCount, inserted);
    }

    /** The label of a pose's cell, -1 when no pose of that cell was inserted. */
    method GetCluster(pose: seq<real>) returns (cluster: int)
      requires Valid() && |pose| == 3 && inserted != []
      ensures cluster == LabelOf(nodes, CellOf(pose, size))
      ensures forall k :: InCell(pose, size, k) ==> cluster == LabelOf(nodes, k)
    {
      hide InCell, CellOf;
      forall k ensures CellOf(pose, size) == k <==> InCell(pose, size, k) { CellIs(pose, size, k); }
      var found := FindNode(nodes, 0, CellOf(pose, size));
      cluster := match found case None => -1 case Some(i) => nodes[i].cluster;
    }
  }

  // The leaves of the tree are those of the inserted keys.
  lemma RepresentsLeaves(nodes: seq<Node>, leafCount: nat, inserted: seq<Entry>)
    requires Represents(nodes, leafCount, inserted)
    ensures LeavesOf(nodes, Keys(inserted))
  {
    hide Route, Keys, SumOf;
    forall i: nat | IsLeaf(nodes, i) ensures nodes[i].key in Keys(inserted) {
      LeafIsFound(nodes, i);
      assert Weight(nodes, nodes[i].key) == SumOf(inserted, nodes[i].key);
      SumOfDefined(inserted, nodes[i].key);
    }
    forall k | k in Keys(inserted) ensures nodes != [] && FindNode(nodes, 0, k).Some? {
      assert Weight(nodes, k) == SumOf(inserted, k);
      SumOfDefined(inserted, k);
    }
  }

  lemma ClusteringStarts(before: seq<Node>, nodes: seq<Node>, queue: seq<nat>, leafCount: nat, inserted: seq<Entry>)
    requires Represents(before, leafCount, inserted) && SameTree(before, nodes)
    requires forall i: nat :: i in queue <==> IsLeaf(nodes, i)
    requires forall i: nat :: !Labelled(nodes, i)
    ensures Clustering(before, nodes, queue, [], Keys(inserted))
  {
    RepresentsLeaves(before, leafCount, inserted);
    SameTreeKeeps(before, nodes);
    LeavesOfSame(before, nodes, Keys(inserted));
  }

  lemma ClusteringHolds(before: seq<Node>, nodes: seq<Node>, queue: seq<nat>, seeds: seq<nat>, cells: set<Key>, n: nat)
    requires Clustering(before, nodes, queue, seeds, cells) && n in queue
    ensures n < |nodes|
  {
    assert IsLeaf(nodes, n);
  }

  lemma ClusteringDone(before: seq<Node>, nodes: seq<Node>, seeds: seq<nat>, leafCount: nat, inserted: seq<Entry>)
    requires Represents(before, leafCount, inserted) && Clustering(before, nodes, [], seeds, Keys(inserted))
    ensures Represents(nodes, leafCount, inserted) && |nodes| == |before|
    ensures SameTree(before, nodes) && Clustered(nodes, |seeds|, Keys(inserted))
  {
    SameTreeKeeps(before, nodes);
    AllLabelledIsClustered(nodes, seeds, Keys(inserted));
  }

  lemma RepresentsSize(nodes: seq<Node>, leafCount: nat, inserted: seq<Entry>)
    requires Represents(nodes, leafCount, inserted)
    ensures WellFormed(nodes) && (nodes == [] <==> inserted == [])
    ensures leafCount <= |inserted| && |nodes| <= 2 * leafCount && (nodes == [] <==> leafCount == 0)
  {
    KeysBound(inserted);
  }
}
