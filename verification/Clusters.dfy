// Clusters of adjacent cells: what the flood fill over the leaves of a k-d tree keeps true.
module Clusters {
  import opened Options
  import opened KdTree

  // Cells that differ by at most one in every coordinate.
  predicate Adjacent(a: Key, b: Key) {
    forall d :: 0 <= d < 3 ==> -1 <= a[d] - b[d] <= 1
  }

  // One of the 27 cells around a cell, itself included.
  function Neighbour(key: Key, i: nat): Key
    requires i < 27
  {
    [key[0] + i / 9 - 1, key[1] + i % 9 / 3 - 1, key[2] + i % 9 % 3 - 1]
  }

  lemma NeighboursAreAdjacent(a: Key, i: nat)
    requires i < 27
    ensures Adjacent(a, Neighbour(a, i))
  {}

  /** The 27 cells tried are all the adjacent ones. */
  lemma AdjacentIsNeighbour(a: Key, b: Key)
    requires Adjacent(a, b)
    ensures exists i: nat :: i < 27 && Neighbour(a, i) == b
  {
    var i := 9 * (b[0] - a[0] + 1) + 3 * (b[1] - a[1] + 1) + (b[2] - a[2] + 1);
    assert i / 9 == b[0] - a[0] + 1 && i % 9 == 3 * (b[1] - a[1] + 1) + (b[2] - a[2] + 1);
    assert Neighbour(a, i) == b;
  }

  // A chain of cells of a set, each adjacent to the next.
  ghost predicate IsChain(cells: set<Key>, p: seq<Key>) {
    && p != []
    && (forall k :: 0 <= k < |p| ==> p[k] in cells)
    && (forall k :: 0 <= k < |p| - 1 ==> Adjacent(p[k], p[k + 1]))
  }

  ghost predicate Linked(cells: set<Key>, a: Key, b: Key) {
    exists p: seq<Key> :: IsChain(cells, p) && p[0] == a && p[|p| - 1] == b
  }

  lemma LinkedSelf(cells: set<Key>, a: Key)
    requires a in cells
    ensures Linked(cells, a, a)
  {
    assert IsChain(cells, [a]);
  }

  lemma LinkedTrans(cells: set<Key>, a: Key, b: Key, c: Key)
    requires Linked(cells, a, b) && Linked(cells, b, c)
    ensures Linked(cells, a, c)
  {
    var p: seq<Key> :| IsChain(cells, p) && p[0] == a && p[|p| - 1] == b;
    var q: seq<Key> :| IsChain(cells, q) && q[0] == b && q[|q| - 1] == c;
    var r := p + q[1..];
    forall k | 0 <= k < |r| - 1 ensures Adjacent(r[k], r[k + 1]) {
      if k < |p| - 1 {
        assert Adjacent(p[k], p[k + 1]);
      } else {
        assert Adjacent(q[k - |p| + 1], q[k - |p| + 2]);
      }
    }
    assert IsChain(cells, r);
  }

  lemma LinkedSymmetric(cells: set<Key>, a: Key, b: Key)
    requires Linked(cells, a, b)
    ensures Linked(cells, b, a)
  {
    var p: seq<Key> :| IsChain(cells, p) && p[0] == a && p[|p| - 1] == b;
    var q := seq(|p|, i requires 0 <= i < |p| => p[|p| - 1 - i]);
    forall k | 0 <= k < |q| - 1 ensures Adjacent(q[k], q[k + 1]) {
      assert Adjacent(p[|p| - 2 - k], p[|p| - 2 - k + 1]);
    }
    assert IsChain(cells, q);
  }

  lemma LinkedStep(cells: set<Key>, a: Key, b: Key)
    requires a in cells && b in cells && Adjacent(a, b)
    ensures Linked(cells, a, b)
  {
    assert IsChain(cells, [a, b]);
  }

  // ------------------------------------------------------------ labels on a tree

  ghost predicate IsLeaf(nodes: seq<Node>, i: nat) {
    i < |nodes| && nodes[i].leaf
  }

  // Trees that differ in labels at most.
  ghost predicate SameTree(a: seq<Node>, b: seq<Node>) {
    |a| == |b| && forall i :: 0 <= i < |a| ==> b[i] == a[i].(cluster := b[i].cluster)
  }

  lemma {:induction false} SameFind(a: seq<Node>, b: seq<Node>, n: nat, key: Key)
    requires WellFormed(a) && SameTree(a, b) && n < |a|
    ensures WellFormed(b) && FindNode(b, n, key) == FindNode(a, n, key) && Route(b, n, key) == Route(a, n, key)
    decreases |a| - n
  {
    if !a[n].leaf { SameFind(a, b, Child(a[n], key), key); }
  }

  lemma SameTreeKeeps(a: seq<Node>, b: seq<Node>)
    requires Inv(a) && SameTree(a, b)
    ensures Inv(b) && forall key :: Weight(b, key) == Weight(a, key)
  {
    if a != [] {
      forall key ensures FindNode(b, 0, key) == FindNode(a, 0, key) && Route(b, 0, key) == Route(a, 0, key) {
        SameFind(a, b, 0, key);
      }
    }
  }

  /** A cell has at most one leaf, and it is found. */
  lemma LeafIsFound(nodes: seq<Node>, i: nat)
    requires Inv(nodes) && IsLeaf(nodes, i)
    ensures FindNode(nodes, 0, nodes[i].key) == Some(i)
  {
    FindIsRoute(nodes, 0, nodes[i].key);
  }

  ghost predicate Near(nodes: seq<Node>, i: nat, j: nat) {
    IsLeaf(nodes, i) && IsLeaf(nodes, j) && Adjacent(nodes[i].key, nodes[j].key)
  }

  ghost predicate Labelled(nodes: seq<Node>, i: nat) {
    IsLeaf(nodes, i) && nodes[i].cluster >= 0
  }

  // Everything near a leaf has a label.
  ghost predicate Closed(nodes: seq<Node>, i: nat) {
    forall j: nat :: Near(nodes, i, j) ==> Labelled(nodes, j)
  }

  // Labels that meet agree.
  ghost predicate Consistent(nodes: seq<Node>) {
    forall i: nat, j: nat :: Near(nodes, i, j) && Labelled(nodes, i) && Labelled(nodes, j) ==>
      nodes[i].cluster == nodes[j].cluster
  }

  // All labels but one are complete.
  ghost predicate OthersClosed(nodes: seq<Node>, c: int) {
    forall i: nat :: Labelled(nodes, i) && nodes[i].cluster != c ==> Closed(nodes, i)
  }

  // Only new labels, all of them c, on leaves without one.
  ghost predicate Extends(a: seq<Node>, b: seq<Node>, c: int) {
    SameTree(a, b) && forall i: nat :: i < |a| ==>
      b[i].cluster == a[i].cluster || (a[i].leaf && a[i].cluster < 0 && b[i].cluster == c)
  }

  // Leaves labelled on the way from one state to another.
  ghost predicate Newly(a: seq<Node>, b: seq<Node>, i: nat) {
    i < |a| && i < |b| && Labelled(b, i) && !Labelled(a, i)
  }

  ghost function Unlabelled(nodes: seq<Node>): set<nat> {
    set i: nat | i < |nodes| && nodes[i].leaf && nodes[i].cluster < 0
  }

  lemma ExtendsTrans(a: seq<Node>, b: seq<Node>, c: seq<Node>, l: int)
    requires Extends(a, b, l) && Extends(b, c, l)
    ensures Extends(a, c, l)
  {}

  lemma ClosedStays(a: seq<Node>, b: seq<Node>, c: int, i: nat)
    requires Extends(a, b, c) && c >= 0 && Closed(a, i)
    ensures Closed(b, i)
  {
    forall j: nat | Near(b, i, j) ensures Labelled(b, j) {
      assert Near(a, i, j);
    }
  }

  lemma OthersStayClosed(a: seq<Node>, b: seq<Node>, c: int)
    requires Extends(a, b, c) && c >= 0 && OthersClosed(a, c)
    ensures OthersClosed(b, c)
  {
    forall i: nat | Labelled(b, i) && b[i].cluster != c ensures Closed(b, i) {
      assert Labelled(a, i);
      ClosedStays(a, b, c, i);
    }
  }

  function Relabel(nodes: seq<Node>, i: nat, c: int): seq<Node>
    requires i < |nodes|
  {
    nodes[i := nodes[i].(cluster := c)]
  }

  /** Giving the label of a leaf to a near one without label clashes with no other label. */
  lemma SpreadKeepsConsistent(nodes: seq<Node>, n: nat, f: nat)
    requires Consistent(nodes) && Labelled(nodes, n) && Near(nodes, n, f) && !Labelled(nodes, f)
    requires OthersClosed(nodes, nodes[n].cluster)
    ensures var after := Relabel(nodes, f, nodes[n].cluster);
      Consistent(after) && Extends(nodes, after, nodes[n].cluster) && OthersClosed(after, nodes[n].cluster)
  {
    var c := nodes[n].cluster;
    var after := Relabel(nodes, f, c);
    OthersStayClosed(nodes, after, c);
    forall i: nat, j: nat | Near(after, i, j) && Labelled(after, i) && Labelled(after, j)
      ensures after[i].cluster == after[j].cluster
    {
      assert Near(nodes, i, j) && Near(nodes, j, i);
      if i != f && j != f {
        assert Labelled(nodes, i) && Labelled(nodes, j);
      } else if i == f && j != f {
        assert Labelled(nodes, j);
        assert nodes[j].cluster != c ==> Closed(nodes, j);
      } else if i != f {
        assert Labelled(nodes, i);
        assert nodes[i].cluster != c ==> Closed(nodes, i);
      }
    }
  }

  lemma FewerUnlabelled(a: seq<Node>, b: seq<Node>, c: int, f: nat)
    requires Extends(a, b, c) && c >= 0 && IsLeaf(a, f) && !Labelled(a, f) && Labelled(b, f)
    ensures Unlabelled(b) < Unlabelled(a)
  {
    assert f in Unlabelled(a) && f !in Unlabelled(b);
  }

  // Since state a only leaves linked to leaf n got its label, and what is near them is labelled.
  ghost predicate Flooded(a: seq<Node>, b: seq<Node>, n: nat, cells: set<Key>) {
    && n < |a| && Extends(a, b, a[n].cluster)
    && forall i: nat :: Newly(a, b, i) ==> Closed(b, i) && Linked(cells, a[n].key, a[i].key)
  }

  /** A flood that goes on through a near leaf is one flood. */
  lemma FloodThrough(a: seq<Node>, b: seq<Node>, d: seq<Node>, n: nat, f: nat, cells: set<Key>)
    requires Flooded(a, b, n, cells) && Labelled(a, n) && Near(b, n, f) && !Labelled(b, f)
    requires Flooded(Relabel(b, f, a[n].cluster), d, f, cells) && Closed(d, f)
    requires a[n].key in cells && a[f].key in cells
    ensures Flooded(a, d, n, cells) && Extends(b, d, a[n].cluster)
  {
    var c := a[n].cluster;
    var m := Relabel(b, f, c);
    assert b[n].cluster == c && m[f].cluster == c && m[f].key == a[f].key;
    ExtendsTrans(b, m, d, c);
    ExtendsTrans(a, b, d, c);
    LinkedStep(cells, a[n].key, a[f].key);
    forall i: nat | Newly(a, d, i)
      ensures Closed(d, i) && Linked(cells, a[n].key, a[i].key)
    {
      if Labelled(b, i) {
        assert Newly(a, b, i);
        ClosedStays(b, d, c, i);
      } else if i != f {
        assert Newly(m, d, i);
        LinkedTrans(cells, a[n].key, a[f].key, a[i].key);
      }
    }
  }

  // Of the first k cells around a leaf, those with a leaf are labelled.
  ghost predicate Tried(nodes: seq<Node>, n: nat, k: nat)
    requires WellFormed(nodes) && n < |nodes| && k <= 27
  {
    forall j: nat :: j < k ==>
      var found := FindNode(nodes, 0, Neighbour(nodes[n].key, j));
      found.Some? ==> Labelled(nodes, found.value)
  }

  lemma TriedStays(a: seq<Node>, b: seq<Node>, c: int, n: nat, k: nat)
    requires WellFormed(a) && n < |a| && k <= 27 && Extends(a, b, c) && c >= 0 && Tried(a, n, k)
    ensures WellFormed(b) && Tried(b, n, k)
  {
    forall j: nat | j < k
      ensures FindNode(b, 0, Neighbour(b[n].key, j)) == FindNode(a, 0, Neighbour(a[n].key, j))
    {
      SameFind(a, b, 0, Neighbour(a[n].key, j));
    }
  }

  /** Trying all 27 cells reaches every leaf nearby. */
  lemma AllTriedIsClosed(nodes: seq<Node>, n: nat)
    requires Inv(nodes) && IsLeaf(nodes, n) && Tried(nodes, n, 27)
    ensures Closed(nodes, n)
  {
    forall j: nat | Near(nodes, n, j) ensures Labelled(nodes, j) {
      AdjacentIsNeighbour(nodes[n].key, nodes[j].key);
      LeafIsFound(nodes, j);
    }
  }

  // ------------------------------------------------------------ the whole clustering

  ghost predicate SpreadFrom(nodes: seq<Node>, seeds: seq<nat>, cells: set<Key>, i: nat)
    requires Labelled(nodes, i)
  {
    var c := nodes[i].cluster;
    c < |seeds| && IsLeaf(nodes, seeds[c]) && Linked(cells, nodes[seeds[c]].key, nodes[i].key)
  }

  /** Every label in use is below a bound, complete, and spread from one leaf. */
  ghost predicate Partial(nodes: seq<Node>, seeds: seq<nat>, cells: set<Key>) {
    && Consistent(nodes)
    && (forall i: nat :: Labelled(nodes, i) ==> Closed(nodes, i))
    && (forall i: nat :: Labelled(nodes, i) ==> SpreadFrom(nodes, seeds, cells, i))
    && (forall c :: 0 <= c < |seeds| ==> IsLeaf(nodes, seeds[c]) && nodes[seeds[c]].cluster == c)
  }

  // A fresh label on one leaf is consistent and leaves all others complete.
  lemma SeedIsConsistent(nodes: seq<Node>, seeds: seq<nat>, cells: set<Key>, n: nat)
    requires Partial(nodes, seeds, cells) && IsLeaf(nodes, n) && !Labelled(nodes, n)
    ensures var after := Relabel(nodes, n, |seeds|);
      Consistent(after) && OthersClosed(after, |seeds|) && Extends(nodes, after, |seeds|)
  {
    var after := Relabel(nodes, n, |seeds|);
    forall i: nat, j: nat | Near(after, i, j) && Labelled(after, i) && Labelled(after, j)
      ensures after[i].cluster == after[j].cluster
    {
      assert Near(nodes, i, j) && Near(nodes, j, i);
      assert i != n ==> Labelled(nodes, i) && Closed(nodes, i);
      assert j != n ==> Labelled(nodes, j) && Closed(nodes, j);
    }
    forall i: nat | Labelled(after, i) && after[i].cluster != |seeds| ensures Closed(after, i) {
      assert Labelled(nodes, i);
      ClosedStays(nodes, after, |seeds|, i);
    }
  }

  /** A finished flood completes one more cluster. */
  lemma FloodCompletes(nodes: seq<Node>, after: seq<Node>, seeds: seq<nat>, cells: set<Key>, n: nat)
    requires Partial(nodes, seeds, cells) && IsLeaf(nodes, n) && !Labelled(nodes, n) && nodes[n].key in cells
    requires Flooded(Relabel(nodes, n, |seeds|), after, n, cells) && Closed(after, n)
    requires Consistent(after) && OthersClosed(after, |seeds|)
    ensures Partial(after, seeds + [n], cells) && Extends(nodes, after, |seeds|)
  {
    var start, c := Relabel(nodes, n, |seeds|), |seeds|;
    SeedIsConsistent(nodes, seeds, cells, n);
    ExtendsTrans(nodes, start, after, c);
    LinkedSelf(cells, nodes[n].key);
    forall i: nat | Labelled(after, i)
      ensures Closed(after, i) && SpreadFrom(after, seeds + [n], cells, i)
    {
      if Labelled(nodes, i) {
        assert SpreadFrom(nodes, seeds, cells, i);
        assert after[i].cluster == nodes[i].cluster;
      } else if i != n {
        assert Newly(start, after, i);
      }
    }
    forall k | 0 <= k < |seeds + [n]|
      ensures IsLeaf(after, (seeds + [n])[k]) && after[(seeds + [n])[k]].cluster == k
    {
      if k < |seeds| { assert Labelled(nodes, seeds[k]); }
    }
  }

  // The label of a key's leaf, -1 for a key without one.
  function LabelOf(nodes: seq<Node>, key: Key): int
    requires WellFormed(nodes)
  {
    if nodes == [] then -1
    else match FindNode(nodes, 0, key) case None => -1 case Some(i) => nodes[i].cluster
  }

  /** Along a chain of cells the label cannot change. */
  lemma {:induction false} ChainKeepsLabel(nodes: seq<Node>, cells: set<Key>, p: seq<Key>)
    requires Inv(nodes) && nodes != [] && Consistent(nodes) && IsChain(cells, p)
    requires forall key :: key in cells ==> FindNode(nodes, 0, key).Some?
    requires forall i: nat :: IsLeaf(nodes, i) ==> Labelled(nodes, i)
    ensures LabelOf(nodes, p[0]) == LabelOf(nodes, p[|p| - 1])
    decreases |p|
  {
    if |p| > 1 {
      var i, j := FindNode(nodes, 0, p[0]).value, FindNode(nodes, 0, p[1]).value;
      assert Adjacent(p[0], p[0 + 1]);
      assert Near(nodes, i, j) && Labelled(nodes, i) && Labelled(nodes, j);
      forall k | 0 <= k < |p[1..]| - 1 ensures Adjacent(p[1..][k], p[1..][k + 1]) {
        assert Adjacent(p[k + 1], p[k + 1 + 1]);
      }
      ChainKeepsLabel(nodes, cells, p[1..]);
    }
  }

  /** Once all leaves are labelled, two cells share a label exactly when a chain of cells links them. */
  lemma LabelsAreClusters(nodes: seq<Node>, seeds: seq<nat>, cells: set<Key>, a: Key, b: Key)
    requires Inv(nodes) && nodes != [] && Partial(nodes, seeds, cells)
    requires forall key :: key in cells ==> FindNode(nodes, 0, key).Some?
    requires forall i: nat :: IsLeaf(nodes, i) ==> Labelled(nodes, i)
    requires a in cells && b in cells
    ensures 0 <= LabelOf(nodes, a) < |seeds|
    ensures LabelOf(nodes, a) == LabelOf(nodes, b) <==> Linked(cells, a, b)
  {
    var i, j := FindNode(nodes, 0, a).value, FindNode(nodes, 0, b).value;
    assert IsLeaf(nodes, i) && IsLeaf(nodes, j);
    assert Labelled(nodes, i) && Labelled(nodes, j);
    assert SpreadFrom(nodes, seeds, cells, i) && SpreadFrom(nodes, seeds, cells, j);
    if nodes[i].cluster == nodes[j].cluster {
      var s := nodes[seeds[nodes[i].cluster]].key;
      LinkedSymmetric(cells, s, a);
      LinkedTrans(cells, a, s, b);
    }
    if Linked(cells, a, b) {
      var p: seq<Key> :| IsChain(cells, p) && p[0] == a && p[|p| - 1] == b;
      ChainKeepsLabel(nodes, cells, p);
    }
  }

  /**
   * Cells share a label exactly when a chain of cells links them, and the labels in use are
   * 0 to count - 1.
   */
  ghost predicate Clustered(nodes: seq<Node>, count: nat, cells: set<Key>)
    requires WellFormed(nodes)
  {
    && (forall a, b :: a in cells && b in cells ==>
          (LabelOf(nodes, a) == LabelOf(nodes, b) <==> Linked(cells, a, b)))
    && (forall a :: LabelOf(nodes, a) < count && (LabelOf(nodes, a) >= 0 <==> a in cells))
    && (forall c: nat :: c < count ==> InUse(nodes, cells, c))
  }

  ghost predicate InUse(nodes: seq<Node>, cells: set<Key>, c: nat)
    requires WellFormed(nodes)
  {
    exists a :: a in cells && LabelOf(nodes, a) == c
  }

  // The leaves are those of a set of cells.
  ghost predicate LeavesOf(nodes: seq<Node>, cells: set<Key>)
    requires WellFormed(nodes)
  {
    && (forall i: nat :: IsLeaf(nodes, i) ==> nodes[i].key in cells)
    && (forall key :: key in cells ==> nodes != [] && FindNode(nodes, 0, key).Some?)
  }

  lemma LeavesOfSame(a: seq<Node>, b: seq<Node>, cells: set<Key>)
    requires WellFormed(a) && LeavesOf(a, cells) && SameTree(a, b)
    ensures WellFormed(b) && LeavesOf(b, cells)
  {
    forall i: nat | IsLeaf(b, i) ensures b[i].key in cells {
      assert IsLeaf(a, i);
    }
    forall key | key in cells ensures FindNode(b, 0, key).Some? {
      SameFind(a, b, 0, key);
    }
  }

  lemma AllLabelledIsClustered(nodes: seq<Node>, seeds: seq<nat>, cells: set<Key>)
    requires Inv(nodes) && LeavesOf(nodes, cells) && Partial(nodes, seeds, cells)
    requires forall i: nat :: IsLeaf(nodes, i) ==> Labelled(nodes, i)
    ensures Clustered(nodes, |seeds|, cells)
  {
    hide Partial, Linked, LabelOf;
    forall a, b | a in cells && b in cells
      ensures LabelOf(nodes, a) == LabelOf(nodes, b) <==> Linked(cells, a, b)
    {
      LabelsAreClusters(nodes, seeds, cells, a, b);
    }
    forall a ensures LabelOf(nodes, a) < |seeds| && (LabelOf(nodes, a) >= 0 <==> a in cells) {
      if a in cells {
        LabelsAreClusters(nodes, seeds, cells, a, a);
      } else {
        NoLeafNoLabel(nodes, cells, a);
      }
    }
    forall c: nat | c < |seeds| ensures InUse(nodes, cells, c) {
      SeedHasLabel(nodes, seeds, cells, c);
    }
  }

  lemma NoLeafNoLabel(nodes: seq<Node>, cells: set<Key>, key: Key)
    requires WellFormed(nodes) && LeavesOf(nodes, cells) && key !in cells
    ensures LabelOf(nodes, key) == -1
  {
    assert nodes == [] || FindNode(nodes, 0, key).None? || IsLeaf(nodes, FindNode(nodes, 0, key).value);
  }

  lemma SeedHasLabel(nodes: seq<Node>, seeds: seq<nat>, cells: set<Key>, c: nat)
    requires Inv(nodes) && LeavesOf(nodes, cells) && Partial(nodes, seeds, cells) && c < |seeds|
    ensures nodes[seeds[c]].key in cells && LabelOf(nodes, nodes[seeds[c]].key) == c
  {
    LeafIsFound(nodes, seeds[c]);
  }

  // ------------------------------------------------------------ the flood, step by step

  // What a flood from leaf n with label c has achieved after k of its neighbours.
  ghost predicate Flooding(before: seq<Node>, nodes: seq<Node>, n: nat, c: int, cells: set<Key>, k: nat) {
    && Inv(nodes) && LeavesOf(nodes, cells) && k <= 27
    && Labelled(before, n) && before[n].cluster == c
    && Flooded(before, nodes, n, cells) && Consistent(nodes) && OthersClosed(nodes, c) && Tried(nodes, n, k)
  }

  lemma FloodStarts(nodes: seq<Node>, n: nat, cells: set<Key>)
    requires Inv(nodes) && LeavesOf(nodes, cells) && Labelled(nodes, n)
    requires Consistent(nodes) && OthersClosed(nodes, nodes[n].cluster)
    ensures Flooding(nodes, nodes, n, nodes[n].cluster, cells, 0)
  {}

  lemma FloodingHolds(before: seq<Node>, nodes: seq<Node>, n: nat, c: int, cells: set<Key>, k: nat)
    requires Flooding(before, nodes, n, c, cells, k)
    ensures WellFormed(nodes) && n < |nodes| && Labelled(nodes, n) && nodes[n].cluster == c
    ensures var r := FindNode(nodes, 0, Neighbour(nodes[n].key, if k < 27 then k else 0));
      r.Some? ==> r.value < |nodes|
  {}

  /** A near leaf without label can be given one, and the flood goes on from there. */
  lemma SpreadTo(before: seq<Node>, nodes: seq<Node>, n: nat, c: int, cells: set<Key>, k: nat, f: nat)
    requires Flooding(before, nodes, n, c, cells, k) && k < 27 && n < |nodes|
    requires FindNode(nodes, 0, Neighbour(nodes[n].key, k)) == Some(f) && nodes[f].cluster < 0
    ensures var after := Relabel(nodes, f, c);
      Inv(after) && Labelled(after, f) && LeavesOf(after, cells) && Consistent(after) && OthersClosed(after, c)
      && Unlabelled(after) < Unlabelled(before)
  {
    NeighboursAreAdjacent(nodes[n].key, k);
    SpreadKeepsConsistent(nodes, n, f);
    var after := Relabel(nodes, f, c);
    SameTreeKeeps(nodes, after);
    LeavesOfSame(nodes, after, cells);
    ExtendsTrans(before, nodes, after, c);
    FewerUnlabelled(before, after, c, f);
  }

  lemma SpreadBack(before: seq<Node>, was: seq<Node>, nodes: seq<Node>, n: nat, c: int, cells: set<Key>, k: nat, f: nat)
    requires Flooding(before, was, n, c, cells, k) && k < 27 && n < |was|
    requires FindNode(was, 0, Neighbour(was[n].key, k)) == Some(f) && was[f].cluster < 0
    requires Flooded(Relabel(was, f, c), nodes, f, cells) && Closed(nodes, f) && Inv(nodes)
    requires Consistent(nodes) && OthersClosed(nodes, c)
    ensures Flooding(before, nodes, n, c, cells, k + 1)
  {
    NeighboursAreAdjacent(was[n].key, k);
    assert before[n].key == was[n].key && before[f].key == was[f].key;
    FloodThrough(before, was, nodes, n, f, cells);
    LeavesOfSame(was, nodes, cells);
    TriedStays(was, nodes, c, n, k);
    SameFind(was, nodes, 0, Neighbour(was[n].key, k));
  }

  lemma SpreadSkips(before: seq<Node>, nodes: seq<Node>, n: nat, c: int, cells: set<Key>, k: nat)
    requires Flooding(before, nodes, n, c, cells, k) && k < 27 && n < |nodes|
    requires var r := FindNode(nodes, 0, Neighbour(nodes[n].key, k)); r.Some? ==> nodes[r.value].cluster >= 0
    ensures Flooding(before, nodes, n, c, cells, k + 1)
  {}

  lemma FloodEnds(before: seq<Node>, nodes: seq<Node>, n: nat, c: int, cells: set<Key>)
    requires Flooding(before, nodes, n, c, cells, 27)
    ensures Flooded(before, nodes, n, cells) && Closed(nodes, n) && Inv(nodes)
    ensures Consistent(nodes) && n < |nodes| && nodes[n].cluster == c && OthersClosed(nodes, c)
  {
    AllTriedIsClosed(nodes, n);
  }

  // What the clustering has achieved while a queue of leaves is still to be looked at.
  ghost predicate Clustering(before: seq<Node>, nodes: seq<Node>, queue: seq<nat>, seeds: seq<nat>, cells: set<Key>) {
    && Inv(nodes) && SameTree(before, nodes) && LeavesOf(nodes, cells) && Partial(nodes, seeds, cells)
    && Waiting(nodes, queue)
  }

  // A queue of leaves, among them all that have no label.
  ghost predicate Waiting(nodes: seq<Node>, queue: seq<nat>) {
    && (forall i: nat :: IsLeaf(nodes, i) ==> Labelled(nodes, i) || i in queue)
    && (forall i: nat :: i in queue ==> IsLeaf(nodes, i))
  }

  lemma QueueShrinks(a: seq<Node>, b: seq<Node>, c: int, queue: seq<nat>)
    requires Waiting(a, queue) && queue != [] && Extends(a, b, c) && c >= 0 && Labelled(b, queue[|queue| - 1])
    ensures Waiting(b, queue[..|queue| - 1])
  {
    assert queue == queue[..|queue| - 1] + [queue[|queue| - 1]];
    forall i: nat | IsLeaf(b, i) ensures Labelled(b, i) || i in queue[..|queue| - 1] {
      assert IsLeaf(a, i);
    }
    forall i: nat | i in queue[..|queue| - 1] ensures IsLeaf(b, i) {
      assert i in queue && IsLeaf(a, i);
    }
  }

  lemma ClusterStarts(before: seq<Node>, nodes: seq<Node>, queue: seq<nat>, seeds: seq<nat>, cells: set<Key>, n: nat)
    requires Clustering(before, nodes, queue, seeds, cells) && n in queue && n < |nodes| && nodes[n].cluster < 0
    ensures var after := Relabel(nodes, n, |seeds|);
      Inv(after) && Labelled(after, n) && LeavesOf(after, cells) && Consistent(after) && OthersClosed(after, |seeds|)
  {
    SeedIsConsistent(nodes, seeds, cells, n);
    var after := Relabel(nodes, n, |seeds|);
    SameTreeKeeps(nodes, after);
    LeavesOfSame(nodes, after, cells);
  }

  lemma ClusterEnds(before: seq<Node>, was: seq<Node>, nodes: seq<Node>, queue: seq<nat>, seeds: seq<nat>,
      cells: set<Key>)
    requires Clustering(before, was, queue, seeds, cells) && queue != []
    requires queue[|queue| - 1] < |was| && was[queue[|queue| - 1]].cluster < 0 && Closed(nodes, queue[|queue| - 1])
    requires Flooded(Relabel(was, queue[|queue| - 1], |seeds|), nodes, queue[|queue| - 1], cells)
    requires Inv(nodes) && Consistent(nodes) && OthersClosed(nodes, |seeds|)
    ensures Clustering(before, nodes, queue[..|queue| - 1], seeds + [queue[|queue| - 1]], cells)
  {
    var n := queue[|queue| - 1];
    hide Inv;
    FloodCompletes(was, nodes, seeds, cells, n);
    LeavesOfSame(was, nodes, cells);
    assert Labelled(nodes, n);
    QueueShrinks(was, nodes, |seeds|, queue);
  }

  lemma ClusterSkips(before: seq<Node>, nodes: seq<Node>, queue: seq<nat>, seeds: seq<nat>, cells: set<Key>)
    requires Clustering(before, nodes, queue, seeds, cells) && queue != []
    requires queue[|queue| - 1] < |nodes| && nodes[queue[|queue| - 1]].cluster >= 0
    ensures Clustering(before, nodes, queue[..|queue| - 1], seeds, cells)
  {
    hide Inv, Partial, LeavesOf;
    QueueShrinks(nodes, nodes, 0, queue);
  }
}
