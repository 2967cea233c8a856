// Weighted samples of poses: total weights, the cumulative table, and groups of samples by label.
module Particles {
  type Pose = p: seq<real> | |p| == 3 witness [0.0, 0.0, 0.0]

  datatype Sample = Sample(pose: Pose, weight: real)

  datatype Group = Group(count: nat, weight: real)

  function Total(s: seq<Sample>): real {
    if s == [] then 0.0 else Total(s[..|s| - 1]) + s[|s| - 1].weight
  }

  /** Weights that can be drawn from: none negative, one altogether. */
  ghost predicate Normalised(s: seq<Sample>) {
    (forall k :: 0 <= k < |s| ==> s[k].weight >= 0.0) && Total(s) == 1.0
  }

  lemma TotalNone(s: seq<Sample>)
    ensures Total(s[..0]) == 0.0
  {}

  lemma TotalNext(s: seq<Sample>, i: nat)
    requires i < |s|
    ensures Total(s[..i + 1]) == Total(s[..i]) + s[i].weight
  {
    assert s[..i + 1][..i] == s[..i];
  }

  // Every weight divided by the same number.
  ghost predicate Scaled(a: seq<Sample>, b: seq<Sample>, t: real)
    requires t != 0.0
  {
    |a| == |b| && forall k :: 0 <= k < |a| ==> b[k] == Sample(a[k].pose, a[k].weight / t)
  }

  lemma {:induction false} TotalScaled(a: seq<Sample>, b: seq<Sample>, t: real)
    requires t != 0.0 && Scaled(a, b, t)
    ensures Total(b) == Total(a) / t
  {
    if a != [] {
      var n := |a| - 1;
      TotalScaled(a[..n], b[..n], t);
      assert Total(a) / t == Total(a[..n]) / t + a[n].weight / t;
    }
  }

  lemma DivideIsOne(x: real, t: real)
    requires t > 0.0
    ensures x / t == 1.0 <==> x == t
  {
    var q := x / t;
    assert x == q * t;
    if q == 1.0 { assert x == t; }
  }

  /** Dividing weights by a number makes them one altogether exactly when that number was their total. */
  lemma ScaledToOne(a: seq<Sample>, b: seq<Sample>, t: real)
    requires t > 0.0 && Scaled(a, b, t)
    ensures Total(b) == 1.0 <==> Total(a) == t
    ensures Total(a) == t && (forall k :: 0 <= k < |a| ==> a[k].weight >= 0.0) ==> Normalised(b)
  {
    TotalScaled(a, b, t);
    DivideIsOne(Total(a), t);
    forall k | 0 <= k < |a| && a[k].weight >= 0.0 ensures b[k].weight >= 0.0 {
      assert a[k].weight / t >= 0.0;
    }
  }

  // Equal weights add up to their number times one of them.
  lemma {:induction false} TotalEqual(s: seq<Sample>, w: real)
    requires forall k :: 0 <= k < |s| ==> s[k].weight == w
    ensures Total(s) == |s| as real * w
  {
    if s != [] {
      TotalEqual(s[..|s| - 1], w);
      assert |s| as real * w == (|s| - 1) as real * w + w;
    }
  }

  lemma EqualShares(s: seq<Sample>, n: nat)
    requires |s| == n > 0 && forall k :: 0 <= k < n ==> s[k].weight == 1.0 / n as real
    ensures Normalised(s)
  {
    TotalEqual(s, 1.0 / n as real);
    assert n as real * (1.0 / n as real) == 1.0;
    assert 1.0 / n as real >= 0.0;
  }

  // ------------------------------------------------------------ the cumulative table

  /** Entry i is the weight of the first i samples. */
  ghost predicate Cumulative(c: seq<real>, s: seq<Sample>) {
    |c| == |s| + 1 && forall i :: 0 <= i <= |s| ==> c[i] == Total(s[..i])
  }

  /** The sample a random number falls on. */
  ghost predicate Hits(s: seq<Sample>, r: real, i: nat) {
    i < |s| && Total(s[..i]) <= r < Total(s[..i + 1])
  }

  lemma HitIsPositive(s: seq<Sample>, r: real, i: nat)
    requires Hits(s, r, i)
    ensures s[i].weight > 0.0
  {
    TotalNext(s, i);
  }

  lemma {:induction false} TotalGrows(s: seq<Sample>, i: nat, j: nat)
    requires i <= j <= |s| && forall k :: 0 <= k < |s| ==> s[k].weight >= 0.0
    ensures Total(s[..i]) <= Total(s[..j])
    decreases j
  {
    if i < j {
      TotalGrows(s, i, j - 1);
      TotalNext(s, j - 1);
    }
  }

  /** No random number falls on two samples: each is drawn with exactly the chance of its weight. */
  lemma HitIsUnique(s: seq<Sample>, r: real, i: nat, j: nat)
    requires Normalised(s) && Hits(s, r, i) && Hits(s, r, j)
    ensures i == j
  {
    if i < j { TotalGrows(s, i + 1, j); }
    if j < i { TotalGrows(s, j + 1, i); }
  }

  // ------------------------------------------------------------ groups

  function Members(labels: seq<int>, c: int): nat {
    multiset(labels)[c]
  }

  function WeightOf(s: seq<Sample>, labels: seq<int>, c: int): real
    requires |labels| == |s|
  {
    if s == [] then 0.0
    else
      var n := |s| - 1;
      WeightOf(s[..n], labels[..n], c) + if labels[n] == c then s[n].weight else 0.0
  }

  function GroupOf(s: seq<Sample>, labels: seq<int>, c: int): Group
    requires |labels| == |s|
  {
    Group(Members(labels, c), WeightOf(s, labels, c))
  }

  lemma GroupNext(s: seq<Sample>, labels: seq<int>, i: nat, c: int)
    requires |labels| == |s| && i < |s|
    ensures GroupOf(s[..i + 1], labels[..i + 1], c) ==
      var g := GroupOf(s[..i], labels[..i], c);
      if labels[i] == c then Group(g.count + 1, g.weight + s[i].weight) else g
  {
    assert s[..i + 1][..i] == s[..i];
    assert labels[..i + 1][..i] == labels[..i];
    assert labels[..i + 1] == labels[..i] + [labels[i]];
  }

  function CountAll(g: seq<Group>): nat {
    if g == [] then 0 else CountAll(g[..|g| - 1]) + g[|g| - 1].count
  }

  function WeighAll(g: seq<Group>): real {
    if g == [] then 0.0 else WeighAll(g[..|g| - 1]) + g[|g| - 1].weight
  }

  lemma {:induction false} OneGroupGrows(g: seq<Group>, c: nat, w: real)
    requires c < |g|
    ensures var after := g[c := Group(g[c].count + 1, g[c].weight + w)];
      CountAll(after) == CountAll(g) + 1 && WeighAll(after) == WeighAll(g) + w
  {
    var n := |g| - 1;
    var after := g[c := Group(g[c].count + 1, g[c].weight + w)];
    if c < n {
      OneGroupGrows(g[..n], c, w);
      assert after[..n] == g[..n][c := Group(g[c].count + 1, g[c].weight + w)];
    } else {
      assert after[..n] == g[..n];
    }
  }

  lemma {:induction false} EmptyGroups(g: seq<Group>)
    requires forall k :: 0 <= k < |g| ==> g[k] == Group(0, 0.0)
    ensures CountAll(g) == 0 && WeighAll(g) == 0.0
  {
    if g != [] { EmptyGroups(g[..|g| - 1]); }
  }

  /** Groups of the first i samples, and all of them counted once. */
  ghost predicate Grouped(s: seq<Sample>, labels: seq<int>, groups: seq<Group>, i: nat)
    requires i <= |s| == |labels|
  {
    && (forall c :: 0 <= c < |groups| ==> groups[c] == GroupOf(s[..i], labels[..i], c))
    && CountAll(groups) == i && WeighAll(groups) == Total(s[..i])
  }

  lemma GroupedNone(s: seq<Sample>, labels: seq<int>, groups: seq<Group>)
    requires |s| == |labels| && forall k :: 0 <= k < |groups| ==> groups[k] == Group(0, 0.0)
    ensures Grouped(s, labels, groups, 0)
  {
    EmptyGroups(groups);
  }

  lemma GroupedNext(s: seq<Sample>, labels: seq<int>, groups: seq<Group>, i: nat)
    requires i < |s| == |labels| && Grouped(s, labels, groups, i) && 0 <= labels[i] < |groups|
    ensures var g := groups[labels[i]];
      Grouped(s, labels, groups[labels[i] := Group(g.count + 1, g.weight + s[i].weight)], i + 1)
  {
    var g := groups[labels[i]];
    var after := groups[labels[i] := Group(g.count + 1, g.weight + s[i].weight)];
    OneGroupGrows(groups, labels[i], s[i].weight);
    TotalNext(s, i);
    hide GroupOf;
    forall c | 0 <= c < |after| ensures after[c] == GroupOf(s[..i + 1], labels[..i + 1], c) {
      GroupNext(s, labels, i, c);
    }
  }
}
