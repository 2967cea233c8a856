// The histogram tree of the particle filter: a k-d tree over integer cells whose nodes live in
// one vector, as a value; finding a cell, and what inserting one changes.
module KdTree {
  import opened Options

  type Key = k: seq<int> | |k| == 3 witness [0, 0, 0]

  // A node of the vector; children and pivot matter for inner nodes only, the rest for leaves.
  datatype Node = Node(
    leaf: bool, depth: nat, key: Key, value: real, cluster: int,
    left: nat, right: nat, pivotDim: nat, pivotValue: real)

  // Children come behind their parent in the vector.
  predicate WellFormed(nodes: seq<Node>) {
    forall i :: 0 <= i < |nodes| && !nodes[i].leaf ==>
      i < nodes[i].left < |nodes| && i < nodes[i].right < |nodes| && nodes[i].pivotDim < 3
  }

  function Child(node: Node, key: Key): nat
    requires node.pivotDim < 3
  {
    if key[node.pivotDim] as real < node.pivotValue then node.left else node.right
  }

  // The leaf of a key, if it has one.
  function FindNode(nodes: seq<Node>, n: nat, key: Key): (r: Option<nat>)
    requires WellFormed(nodes) && n < |nodes|
    ensures r.Some? ==> n <= r.value < |nodes| && nodes[r.value].leaf && nodes[r.value].key == key
    decreases |nodes| - n
  {
    if nodes[n].leaf then (if nodes[n].key == key then Some(n) else None)
    else FindNode(nodes, Child(nodes[n], key), key)
  }

  // The leaf the pivots lead a key to, whether or not it is the key's own.
  function Route(nodes: seq<Node>, n: nat, key: Key): (r: nat)
    requires WellFormed(nodes) && n < |nodes|
    ensures n <= r < |nodes| && nodes[r].leaf
    decreases |nodes| - n
  {
    if nodes[n].leaf then n else Route(nodes, Child(nodes[n], key), key)
  }

  lemma {:induction false} FindIsRoute(nodes: seq<Node>, n: nat, key: Key)
    requires WellFormed(nodes) && n < |nodes|
    ensures var r := Route(nodes, n, key);
      FindNode(nodes, n, key) == if nodes[r].key == key then Some(r) else None
    decreases |nodes| - n
  {
    if !nodes[n].leaf { FindIsRoute(nodes, Child(nodes[n], key), key); }
  }

  /** Every leaf is where the pivots lead its key. */
  ghost predicate Inv(nodes: seq<Node>) {
    && WellFormed(nodes)
    && forall i :: 0 <= i < |nodes| && nodes[i].leaf ==> Route(nodes, 0, nodes[i].key) == i
  }

  function Weight(nodes: seq<Node>, key: Key): Option<real>
    requires WellFormed(nodes)
  {
    if nodes == [] then None
    else match FindNode(nodes, 0, key) case None => None case Some(i) => Some(nodes[i].value)
  }

  // ------------------------------------------------------------ insertion

  function Leaf(depth: nat, key: Key, value: real): Node {
    Node(true, depth, key, value, -1, 0, 0, 0, 0.0)
  }

  function Abs(x: int): nat {
    if x < 0 then -x else x
  }

  // The first dimension in which two keys differ most.
  function SplitDim(a: Key, b: Key): (d: nat)
    requires a != b
    ensures d < 3 && a[d] != b[d]
    ensures forall e :: 0 <= e < 3 ==> Abs(a[e] - b[e]) <= Abs(a[d] - b[d])
    ensures forall e :: 0 <= e < d ==> Abs(a[e] - b[e]) < Abs(a[d] - b[d])
  {
    var x, y, z := Abs(a[0] - b[0]), Abs(a[1] - b[1]), Abs(a[2] - b[2]);
    if x >= y && x >= z && x > 0 then 0
    else if y >= z && y > 0 then 1
    else
      assert a == [a[0], a[1], a[2]] && b == [b[0], b[1], b[2]];
      2
  }

  function Pivot(a: Key, b: Key, d: nat): real
    requires d < 3
  {
    (a[d] + b[d]) as real / 2.0
  }

  // The vector after a key arrived at leaf r.
  function Inserted(nodes: seq<Node>, r: nat, key: Key, value: real): seq<Node>
    requires r < |nodes|
  {
    var was := nodes[r];
    if was.key == key then nodes[r := was.(value := was.value + value)]
    else
      var d := SplitDim(key, was.key);
      var p := Pivot(key, was.key, d);
      var added, moved := Leaf(was.depth + 1, key, value), Leaf(was.depth + 1, was.key, was.value);
      var inner := was.(leaf := false, left := |nodes|, right := |nodes| + 1, pivotDim := d, pivotValue := p);
      nodes[r := inner] + (if key[d] as real < p then [added, moved] else [moved, added])
  }

  lemma PivotSeparates(a: Key, b: Key, d: nat)
    requires d < 3 && a[d] != b[d]
    ensures (a[d] as real < Pivot(a, b, d)) <==> a[d] < b[d]
    ensures (b[d] as real < Pivot(a, b, d)) <==> b[d] < a[d]
  {}

  // Where a key is led once leaf r has been split.
  lemma {:induction false} RouteInserted(nodes: seq<Node>, n: nat, r: nat, key: Key, value: real, k: Key)
    requires WellFormed(nodes) && n < |nodes| && r < |nodes| && nodes[r].leaf
    ensures var after := Inserted(nodes, r, key, value);
      WellFormed(after) &&
      var at := Route(nodes, n, k);
      Route(after, n, k) == if at != r || nodes[r].key == key then at else Child(after[r], k)
    decreases |nodes| - n
  {
    var after := Inserted(nodes, r, key, value);
    if nodes[n].leaf {
      if n == r && nodes[r].key != key {
        assert after[Child(after[r], k)].leaf;
      }
    } else {
      RouteInserted(nodes, Child(nodes[n], k), r, key, value, k);
    }
  }

  // The two leaves made of one are where the pivots lead their keys.
  lemma SplitLeaves(nodes: seq<Node>, r: nat, key: Key, value: real)
    requires r < |nodes| && nodes[r].leaf && nodes[r].key != key
    ensures var after := Inserted(nodes, r, key, value);
      Child(after[r], key) != Child(after[r], nodes[r].key)
      && after[Child(after[r], key)] == Leaf(nodes[r].depth + 1, key, value)
      && after[Child(after[r], nodes[r].key)] == Leaf(nodes[r].depth + 1, nodes[r].key, nodes[r].value)
  {
    PivotSeparates(key, nodes[r].key, SplitDim(key, nodes[r].key));
  }

  lemma OldLeafStays(nodes: seq<Node>, key: Key, value: real, i: nat)
    requires Inv(nodes) && i < |nodes| && nodes[i].leaf
    requires i != Route(nodes, 0, key) || nodes[i].key == key
    ensures var after := Inserted(nodes, Route(nodes, 0, key), key, value);
      WellFormed(after) && after[i].key == nodes[i].key && Route(after, 0, nodes[i].key) == i
  {
    RouteInserted(nodes, 0, Route(nodes, 0, key), key, value, nodes[i].key);
  }

  lemma NewLeafIsReached(nodes: seq<Node>, key: Key, value: real, k: Key)
    requires Inv(nodes) && nodes != []
    requires var r := Route(nodes, 0, key); nodes[r].key != key && (k == key || k == nodes[r].key)
    ensures var r := Route(nodes, 0, key);
      var after := Inserted(nodes, r, key, value);
      WellFormed(after) && Route(after, 0, k) == Child(after[r], k)
  {
    RouteInserted(nodes, 0, Route(nodes, 0, key), key, value, k);
  }

  /** Inserting keeps every leaf where the pivots lead. */
  lemma InsertKeepsInv(nodes: seq<Node>, key: Key, value: real)
    requires Inv(nodes) && nodes != []
    ensures Inv(Inserted(nodes, Route(nodes, 0, key), key, value))
  {
    var r := Route(nodes, 0, key);
    var after := Inserted(nodes, r, key, value);
    RouteInserted(nodes, 0, r, key, value, key);
    if nodes[r].key != key {
      NewLeafIsReached(nodes, key, value, key);
      NewLeafIsReached(nodes, key, value, nodes[r].key);
      SplitLeaves(nodes, r, key, value);
    }
    hide SplitDim, Pivot, Child, Route;
    forall i: nat | i < |nodes| && after[i].leaf
      ensures Route(after, 0, after[i].key) == i
    {
      OldLeafStays(nodes, key, value, i);
    }
  }

  /** A key's weight grows by what is inserted under it; every other key keeps its weight. */
  lemma InsertAddsWeight(nodes: seq<Node>, key: Key, value: real, k: Key)
    requires Inv(nodes) && nodes != []
    ensures var after := Inserted(nodes, Route(nodes, 0, key), key, value);
      WellFormed(after) &&
      Weight(after, k) == if k != key then Weight(nodes, k)
        else match Weight(nodes, k) case None => Some(value) case Some(w) => Some(w + value)
  {
    var r := Route(nodes, 0, key);
    var after := Inserted(nodes, r, key, value);
    RouteInserted(nodes, 0, r, key, value, k);
    FindIsRoute(nodes, 0, k);
    FindIsRoute(after, 0, k);
    if nodes[r].key != key { SplitLeaves(nodes, r, key, value); }
  }
}
