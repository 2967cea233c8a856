// A set of samples with its histogram tree and its clusters.
module SampleSets {
  import opened Clusters
  import opened KdTree
  import opened HistogramTree
  import opened Particles

  // The cells that samples lie in.
  function Cells(s: seq<Sample>, size: seq<real>): set<Key>
    requires |size| == 3 && forall d :: 0 <= d < 3 ==> size[d] > 0.0
  {
    set k | 0 <= k < |s| :: CellOf(s[k].pose, size)
  }

  /** The tree was given the samples one by one. */
  ghost predicate Entered(s: seq<Sample>, inserted: seq<Entry>, size: seq<real>)
    requires |size| == 3 && forall d :: 0 <= d < 3 ==> size[d] > 0.0
  {
    |inserted| == |s| && forall k :: 0 <= k < |s| ==> inserted[k].key == CellOf(s[k].pose, size)
  }

  lemma EnteredCells(s: seq<Sample>, inserted: seq<Entry>, size: seq<real>)
    requires |size| == 3 && forall d :: 0 <= d < 3 ==> size[d] > 0.0
    requires Entered(s, inserted, size)
    ensures Keys(inserted) == Cells(s, size)
  {
    hide CellOf;
    forall a ensures a in Keys(inserted) <==> a in Cells(s, size) {
      if a in Cells(s, size) {
        var k :| 0 <= k < |s| && CellOf(s[k].pose, size) == a;
        assert inserted[k] in inserted;
      }
    }
  }

  // Labels 0 to count - 1 take that many cells.
  lemma {:induction false} LabelsNeedCells(nodes: seq<Node>, cells: set<Key>, count: nat) returns (some: set<Key>)
    requires WellFormed(nodes) && forall c: nat :: c < count ==> InUse(nodes, cells, c)
    ensures some <= cells && |some| == count && forall a :: a in some ==> LabelOf(nodes, a) < count
  {
    if count == 0 {
      some := {};
    } else {
      some := LabelsNeedCells(nodes, cells, count - 1);
      assert InUse(nodes, cells, count - 1);
      var a :| a in cells && LabelOf(nodes, a) == count - 1;
      some := some + {a};
    }
  }

  lemma FewClusters(nodes: seq<Node>, inserted: seq<Entry>, count: nat)
    requires WellFormed(nodes) && Clustered(nodes, count, Keys(inserted))
    ensures count <= |inserted|
  {
    var some := LabelsNeedCells(nodes, Keys(inserted), count);
    KeysBound(inserted);
    assert Keys(inserted) == some + (Keys(inserted) - some);
  }

  ghost function LabelsOf(nodes: seq<Node>, inserted: seq<Entry>): (r: seq<int>)
    requires WellFormed(nodes)
    ensures |r| == |inserted|
  {
    seq(|inserted|, k requires 0 <= k < |inserted| => LabelOf(nodes, inserted[k].key))
  }

  /** Labels of samples are cluster numbers, and every cluster has a sample. */
  lemma LabelsInRange(nodes: seq<Node>, inserted: seq<Entry>, count: nat)
    requires WellFormed(nodes) && Clustered(nodes, count, Keys(inserted))
    ensures var labels := LabelsOf(nodes, inserted);
      && (forall k :: 0 <= k < |inserted| ==> 0 <= labels[k] < count)
      && (forall c :: 0 <= c < count ==> Members(labels, c) > 0)
      && (forall c :: c >= count ==> Members(labels, c) == 0)
  {
    hide LabelOf;
    var labels := LabelsOf(nodes, inserted);
    forall k | 0 <= k < |inserted| ensures 0 <= labels[k] < count {
      assert inserted[k] in inserted;
      assert inserted[k].key in Keys(inserted);
    }
    forall c: int | 0 <= c < count ensures Members(labels, c) > 0 {
      assert InUse(nodes, Keys(inserted), c);
      var a :| a in Keys(inserted) && LabelOf(nodes, a) == c;
      var e :| e in inserted && e.key == a;
      var k :| 0 <= k < |inserted| && inserted[k] == e;
      assert labels[k] == c;
    }
    forall c | c >= count ensures Members(labels, c) == 0 {
      assert forall k :: 0 <= k < |labels| ==> labels[k] != c;
      assert c !in labels;
    }
  }

  class SampleSet {
    const maxSamples: nat
    const kdTree: ParticleFilterKDTree
    var samples: seq<Sample>
    var sampleCount: nat
    var clusterCount: nat
    var clusters: seq<Group>

    ghost predicate Valid()
      reads this, kdTree
    {
      && |samples| == |clusters| == maxSamples && maxSamples > 0 && sampleCount <= maxSamples
      && kdTree.Valid() && kdTree.nodeMaxCount == 3 * maxSamples
    }

    function Used(): (r: seq<Sample>)
      requires sampleCount <= |samples|
      reads this
    {
      samples[..sampleCount]
    }

    /** The tree holds exactly these samples. */
    ghost predicate Indexed()
      requires Valid()
      reads this, kdTree
    {
      Entered(Used(), kdTree.inserted, kdTree.size)
    }

    constructor (maxSamples: nat, size: seq<real>)
      requires maxSamples > 0 && |size| == 3 && forall d :: 0 <= d < 3 ==> size[d] > 0.0
      ensures Valid() && this.maxSamples == maxSamples && fresh(kdTree) && kdTree.size == size
      ensures sampleCount == maxSamples && Normalised(Used())
    {
      this.maxSamples := maxSamples;
      samples := seq(maxSamples, _ => Sample([0.0, 0.0, 0.0], 1.0 / maxSamples as real));
      sampleCount, clusterCount := maxSamples, 0;
      clusters := seq(maxSamples, _ => Group(0, 0.0));
      kdTree := new ParticleFilterKDTree(maxSamples, size);
      new;
      EqualShares(Used(), maxSamples);
    }

    method Clear()
      requires Valid()
      modifies this`sampleCount, kdTree
      ensures Valid() && Indexed() && sampleCount == 0
    {
      kdTree.Clear();
      sampleCount := 0;
    }

    /** One more sample, in the histogram too. */
    method Add(pose: Pose, weight: real)
      requires Valid() && Indexed() && sampleCount < maxSamples
      modifies this`samples, this`sampleCount, kdTree
      ensures Valid() && Indexed() && Used() == old(Used()) + [Sample(pose, weight)]
        && sampleCount == old(sampleCount) + 1
      ensures kdTree.inserted == old(kdTree.inserted) + [Entry(CellOf(pose, kdTree.size), weight)]
    {
      hide CellOf;
      samples := samples[sampleCount := Sample(pose, weight)];
      sampleCount := sampleCount + 1;
      kdTree.InsertPose(pose, weight);
      assert Used() == old(Used()) + [Sample(pose, weight)];
    }

    /** Divides every weight by the total, and tells what the weights were together. */
    method Divide(total: real) returns (sum: real)
      requires Valid() && total != 0.0
      modifies this`samples
      ensures Valid() && (old(Indexed()) ==> Indexed())
      ensures Scaled(old(Used()), Used(), total) && sum == Total(old(Used()))
    {
      hide CellOf, Represents, Total;
      sum := 0.0;
      TotalNone(Used());
      for i := 0 to sampleCount
        invariant |samples| == maxSamples && sum == Total(old(Used())[..i])
        invariant forall k :: 0 <= k < i ==> samples[k] == Sample(old(samples)[k].pose, old(samples)[k].weight / total)
        invariant forall k :: i <= k < maxSamples ==> samples[k] == old(samples)[k]
      {
        TotalNext(old(Used()), i);
        sum := sum + samples[i].weight;
        samples := samples[i := samples[i].(weight := samples[i].weight / total)];
      }
      assert old(Used())[..sampleCount] == old(Used());
    }

    /** Gives all samples the same weight. */
    method Level()
      requires Valid() && sampleCount > 0
      modifies this`samples
      ensures Valid() && (old(Indexed()) ==> Indexed()) && Normalised(Used())
      ensures |Used()| == old(|Used()|) && forall k :: 0 <= k < sampleCount ==> Used()[k].pose == old(Used())[k].pose
    {
      hide CellOf, Represents, Normalised;
      for i := 0 to sampleCount
        invariant |samples| == maxSamples
        invariant forall k :: 0 <= k < i ==> samples[k].weight == 1.0 / sampleCount as real
        invariant forall k :: 0 <= k < maxSamples ==> samples[k].pose == old(samples)[k].pose
      {
        samples := samples[i := samples[i].(weight := 1.0 / sampleCount as real)];
      }
      EqualShares(Used(), sampleCount);
    }

    // The label of every sample.
    ghost function Labels(): (r: seq<int>)
      requires Valid() && Indexed()
      reads this, kdTree
      ensures |r| == sampleCount
    {
      LabelsOf(kdTree.nodes, kdTree.inserted)
    }

    /** The groups are the clusters of the samples' cells: each sample is in one, and exactly the first few have any. */
    ghost predicate InGroups()
      requires Valid() && Indexed()
      reads this, kdTree
    {
      && clusterCount <= sampleCount
      && Clustered(kdTree.nodes, clusterCount, Cells(Used(), kdTree.size))
      && Grouped(Used(), Labels(), clusters, sampleCount)
      && forall c :: 0 <= c < maxSamples ==> (clusters[c].count > 0 <==> c < clusterCount)
    }

    /** Clusters the tree and puts every sample into the group of its cluster. */
    method ClusterStatistics()
      requires Valid() && Indexed()
      modifies this`clusterCount, this`clusters, kdTree`nodes
      ensures Valid() && Indexed() && InGroups()
    {
      hide Clustered, LabelOf, CellOf, Grouped, Represents, Entered, LabelsOf, Cells, Members;
      ghost var n := kdTree.Cluster();
      RepresentsSize(kdTree.nodes, kdTree.leafCount, kdTree.inserted);
      FewClusters(kdTree.nodes, kdTree.inserted, n);
      LabelsInRange(kdTree.nodes, kdTree.inserted, n);
      EnteredCells(Used(), kdTree.inserted, kdTree.size);
      clusterCount := 0;
      clusters := seq(maxSamples, _ => Group(0, 0.0));
      GroupedNone(Used(), Labels(), clusters);
      ghost var labels := Labels();
      var i := 0;
      while i < sampleCount
        invariant i <= sampleCount && |clusters| == maxSamples && clusterCount <= n
        invariant Grouped(Used(), labels, clusters, i)
        invariant forall k :: 0 <= k < i ==> labels[k] < clusterCount
        modifies this`clusterCount, this`clusters
      {
        var clusterIndex := kdTree.GetCluster(samples[i].pose);
        LabelAt(kdTree.nodes, kdTree.inserted, Used(), kdTree.size, i);
        if clusterIndex < 0 {
          break;
        }
        if clusterIndex < maxSamples {
          clusterCount := if clusterIndex + 1 > clusterCount then clusterIndex + 1 else clusterCount;
          GroupedNext(Used(), labels, clusters, i);
          var g := clusters[clusterIndex];
          clusters := clusters[clusterIndex := Group(g.count + 1, g.weight + samples[i].weight)];
        }
        i := i + 1;
      }
      AllGroups(Used(), labels, clusters, clusterCount, n);
    }
  }

  lemma LabelAt(nodes: seq<Node>, inserted: seq<Entry>, s: seq<Sample>, size: seq<real>, i: nat)
    requires WellFormed(nodes) && |size| == 3 && (forall d :: 0 <= d < 3 ==> size[d] > 0.0)
    requires Entered(s, inserted, size) && i < |s|
    ensures |inserted| == |s| && LabelsOf(nodes, inserted)[i] == LabelOf(nodes, CellOf(s[i].pose, size))
  {}

  lemma AllGroups(s: seq<Sample>, labels: seq<int>, groups: seq<Group>, clusterCount: nat, n: nat)
    requires |s| == |labels| && Grouped(s, labels, groups, |s|) && clusterCount <= n <= |groups|
    requires forall k :: 0 <= k < |labels| ==> labels[k] < clusterCount
    requires forall c :: 0 <= c < n ==> Members(labels, c) > 0
    requires forall c :: c >= n ==> Members(labels, c) == 0
    ensures clusterCount == n && forall c :: 0 <= c < |groups| ==> (groups[c].count > 0 <==> c < n)
  {
    assert s[..|s|] == s && labels[..|labels|] == labels;
    if n > 0 {
      assert Members(labels, n - 1) > 0;
      var k :| 0 <= k < |labels| && labels[k] == n - 1;
    }
  }
}
