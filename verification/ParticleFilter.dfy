// The particle filter's weights: initialisation, reweighting, and resampling into the other sample set.
module ParticleFilter {
  import Clusters
  import opened HistogramTree
  import opened Particles
  import opened SampleFormula
  import opened SampleSets

  // One round of chance: whether to draw afresh, which sample to take otherwise, and the fresh pose.
  datatype Draw = Draw(chance: real, pick: real, pose: Pose)

  predicate Fair(d: Draw) {
    0.0 <= d.chance < 1.0 && 0.0 <= d.pick < 1.0
  }

  // How often to draw afresh. A slow average of nothing divides by zero: the quotient is infinite or no number, and
  // compares like these values with random numbers below one.
  function WDiff(slow: real, fast: real): real {
    if slow == 0.0 then (if fast < 0.0 then 1.0 else 0.0)
    else if 1.0 - fast / slow < 0.0 then 0.0
    else 1.0 - fast / slow
  }

  /**
   * The chance to draw afresh is positive exactly when the fast average has fallen below the slow
   * one; it is the part by which it has, and so at most one.
   */
  lemma FreshWhenFalling(slow: real, fast: real)
    requires slow >= 0.0 && fast >= 0.0
    ensures 0.0 <= WDiff(slow, fast) <= 1.0
    ensures WDiff(slow, fast) > 0.0 <==> fast < slow
    ensures fast < slow ==> WDiff(slow, fast) * slow == slow - fast
  {
    if slow > 0.0 {
      var q := fast / slow;
      assert fast == q * slow;
      if q < 1.0 { assert (1.0 - q) * slow > 0.0; } else { assert (q - 1.0) * slow >= 0.0; }
      assert (1.0 - q) * slow == slow - fast;
      assert q >= 0.0;
    }
  }

  /** A pose drawn afresh, or that of the sample a random number falls on. */
  ghost predicate Drawn(s: seq<Sample>, diff: real, d: Draw, pose: Pose) {
    if d.chance < diff then pose == d.pose
    else exists i: nat :: Hits(s, d.pick, i) && pose == s[i].pose
  }

  /** A table of running sums has a step for every random number. */
  method Pick(s: seq<Sample>, c: seq<real>, r: real) returns (i: nat)
    requires Cumulative(c, s) && Total(s) == 1.0 && 0.0 <= r < 1.0
    ensures Hits(s, r, i)
  {
    assert s[..|s|] == s;
    i := 0;
    while i < |s|
      invariant i <= |s| && c[i] <= r
    {
      if c[i] <= r && r < c[i + 1] {
        break;
      }
      i := i + 1;
    }
  }

  method Sums(s: seq<Sample>) returns (c: seq<real>)
    ensures Cumulative(c, s)
  {
    c := [0.0];
    for i := 0 to |s|
      invariant |c| == i + 1 && forall k :: 0 <= k <= i ==> c[k] == Total(s[..k])
    {
      TotalNext(s, i);
      c := c + [c[i] + s[i].weight];
    }
  }

  /**
   * Weights divided by a positive total: one together exactly when it was the true one. With no such total all
   * samples weigh the same.
   */
  ghost predicate Reweighed(a: seq<Sample>, b: seq<Sample>, total: real) {
    && |a| == |b| && (forall k :: 0 <= k < |a| ==> b[k].pose == a[k].pose)
    && (total > 0.0 ==> Scaled(a, b, total) && (Total(b) == 1.0 <==> Total(a) == total))
    && (total <= 0.0 || (total == Total(a) && NoneNegative(a)) ==> Normalised(b))
  }

  lemma ReweighedIs(a: seq<Sample>, total: real)
    ensures total > 0.0 ==> forall b :: Scaled(a, b, total) ==> Reweighed(a, b, total)
    ensures total <= 0.0 ==> forall b: seq<Sample> ::
      Normalised(b) && |b| == |a| && (forall k :: 0 <= k < |a| ==> b[k].pose == a[k].pose) ==> Reweighed(a, b, total)
  {
    if total > 0.0 {
      forall b | Scaled(a, b, total) ensures Reweighed(a, b, total) {
        ScaledToOne(a, b, total);
      }
    }
  }

  ghost predicate NoneNegative(s: seq<Sample>) {
    forall k :: 0 <= k < |s| ==> s[k].weight >= 0.0
  }

  class ParticleFilter {
    const minSamples: nat
    const maxSamples: nat
    const alphaSlow: real
    const alphaFast: real
    const popErr: real
    const popZ: real
    // The square root.
    const root: real -> real
    const size: seq<real>
    const set0: SampleSet
    const set1: SampleSet
    var currentSet: nat
    var wSlow: real
    var wFast: real

    ghost predicate Valid()
      reads this, set0, set1, set0.kdTree, set1.kdTree
    {
      && set0 != set1 && set0.kdTree != set1.kdTree && currentSet < 2 && popErr > 0.0 && maxSamples > 0
      && set0.Valid() && set1.Valid() && set0.maxSamples == set1.maxSamples == maxSamples
      && |size| == 3 && (forall d :: 0 <= d < 3 ==> size[d] > 0.0) && set0.kdTree.size == set1.kdTree.size == size
    }

    function Current(): SampleSet
      reads this`currentSet
    {
      if currentSet == 0 then set0 else set1
    }

    function Other(): SampleSet
      reads this`currentSet
    {
      if currentSet == 0 then set1 else set0
    }

    /** Both sets begin with equal weights. */
    constructor (minSamples: nat, maxSamples: nat, alphaSlow: real, alphaFast: real, root: real -> real,
        size: seq<real>)
      requires maxSamples > 0 && |size| == 3 && forall d :: 0 <= d < 3 ==> size[d] > 0.0
      ensures Valid() && Normalised(set0.Used()) && Normalised(set1.Used()) && currentSet == 0
      ensures this.minSamples == minSamples && this.maxSamples == maxSamples && popErr == 0.01 && popZ == 3.0
      ensures this.alphaSlow == alphaSlow && this.alphaFast == alphaFast && wSlow == wFast == 0.0
      ensures this.root == root && this.size == size
    {
      this.minSamples, this.maxSamples, this.alphaSlow, this.alphaFast := minSamples, maxSamples, alphaSlow, alphaFast;
      this.root, this.size := root, size;
      popErr, popZ := 0.01, 3.0;
      currentSet, wSlow, wFast := 0, 0.0, 0.0;
      set0 := new SampleSet(maxSamples, size);
      set1 := new SampleSet(maxSamples, size);
    }

    // The number of samples the formula asks for so many occupied cells.
    function Wanted(k: int): int
      requires k > 1 && popErr > 0.0
    {
      var b := 2.0 / (9.0 * (k as real - 1.0));
      var c := root(2.0 / (9.0 * (k as real - 1.0))) * popZ;
      var x := 1.0 - b + c;
      Ceil((k as real - 1.0) / (2.0 * popErr) * x * x * x)
    }

    // The argument of the root in the formula.
    function Share(k: int): real
      requires k > 1
    {
      2.0 / (9.0 * (k as real - 1.0))
    }

    ghost predicate IsRoot(x: real) {
      root(x) >= 0.0 && root(x) * root(x) == x
    }

    lemma WantedAt(k: int, n: real, x: real)
      requires k > 1 && popErr > 0.0 && n == k as real - 1.0 && x == 1.0 - Share(k) + root(Share(k)) * popZ
      ensures Wanted(k) == Ceil(OverQuotient(n, 2.0 * popErr, x))
    {}

    /** The more cells are occupied, the more samples are wanted. */
    lemma WantedGrows(k: int)
      requires k > 1 && popErr > 0.0 && popZ == 3.0 && IsRoot(Share(k)) && IsRoot(Share(k + 1))
      ensures Wanted(k) <= Wanted(k + 1)
    {
      hide Square, Cube, Ceil, Wanted, OverQuotient;
      var n, u, v := k as real - 1.0, root(Share(k)), root(Share(k + 1));
      RootsOf(n, u, v);
      assert n + 1.0 == (k + 1) as real - 1.0;
      var a, c := 1.0 - Share(k) + u * popZ, 1.0 - Share(k + 1) + v * popZ;
      CubeGrows(n, u, v, a, c);
      CubeOverQuotient(n, 2.0 * popErr, a);
      CubeOverQuotient(n + 1.0, 2.0 * popErr, c);
      QuotientGrows(n * Cube(a), (n + 1.0) * Cube(c), 2.0 * popErr);
      CeilGrows(OverQuotient(n, 2.0 * popErr, a), OverQuotient(n + 1.0, 2.0 * popErr, c));
      WantedAt(k, n, a);
      WantedAt(k + 1, n + 1.0, c);
    }

    /** What the formula comes to for three, nine and nineteen cells. */
    lemma WantedExamples()
      requires popErr == 0.01 && popZ == 3.0
      requires root(1.0 / 9.0) == 1.0 / 3.0 && root(1.0 / 36.0) == 1.0 / 6.0 && root(1.0 / 81.0) == 1.0 / 9.0
      ensures Wanted(3) == 674 && Wanted(9) == 1277 && Wanted(19) == 2075
    {
      assert Share(3) == 1.0 / 9.0 && Share(9) == 1.0 / 36.0 && Share(19) == 1.0 / 81.0;
    }

    /** The wanted number, kept between the least and the most there may be. */
    function ResampleLimit(k: int): (n: int)
      requires popErr > 0.0
      ensures k <= 1 ==> n == maxSamples
      ensures minSamples <= maxSamples ==> minSamples <= n <= maxSamples
      ensures k > 1 && minSamples <= Wanted(k) <= maxSamples ==> n == Wanted(k)
      ensures k > 1 && Wanted(k) < minSamples ==> n == minSamples
      ensures k > 1 && minSamples <= Wanted(k) && Wanted(k) > maxSamples ==> n == maxSamples
    {
      if k <= 1 then maxSamples
      else
        var n := Wanted(k);
        if n < minSamples then minSamples else if n > maxSamples then maxSamples else n
    }

    /** A filter at given poses: equal weights, all of them in the histogram and in clusters. */
    method InitByModel(poses: seq<Pose>)
      requires Valid() && |poses| == maxSamples
      modifies this`wSlow, this`wFast, Current(), Current().kdTree
      ensures Valid() && Current().Indexed() && Normalised(Current().Used()) && wSlow == wFast == 0.0
      ensures |Current().Used()| == maxSamples && forall k :: 0 <= k < maxSamples ==>
        Current().Used()[k].pose == poses[k]
      ensures Current().InGroups()
    {
      hide Represents, Entered, Normalised, CellOf, Total;
      var current := Current();
      current.Clear();
      for i := 0 to maxSamples
        invariant Valid() && current.Indexed() && current.sampleCount == i
        invariant forall k :: 0 <= k < i ==> current.Used()[k] == Sample(poses[k], 1.0 / maxSamples as real)
      {
        current.Add(poses[i], 1.0 / maxSamples as real);
      }
      EqualShares(current.Used(), maxSamples);
      wSlow, wFast := 0.0, 0.0;
      current.ClusterStatistics();
    }

    // A running average takes a new value in.
    function Averaged(average: real, avg: real, alpha: real): real {
      if average == 0.0 then avg else average + alpha * (avg - average)
    }

    /** A running average stays between its old value and the new one; the first value is taken as it is. */
    lemma AveragedBetween(average: real, avg: real, alpha: real)
      requires 0.0 <= alpha <= 1.0
      ensures var r := Averaged(average, avg, alpha);
        && (average == 0.0 ==> r == avg)
        && (average <= avg ==> average <= r <= avg) && (avg <= average ==> avg <= r <= average)
        && (alpha == 0.0 && average != 0.0 ==> r == average) && (alpha == 1.0 ==> r == avg)
    {
      if average <= avg {
        NotNegative(alpha, avg - average);
        NotNegative(1.0 - alpha, avg - average);
      } else {
        NotNegative(alpha, average - avg);
        NotNegative(1.0 - alpha, average - avg);
      }
    }

    /** Normalises the weights; a positive total also goes into the running averages. */
    method UpdateOmega(total: real)
      requires Valid() && Current().sampleCount > 0
      modifies this`wSlow, this`wFast, Current()`samples
      ensures Valid() && (old(Current().Indexed()) ==> Current().Indexed())
      ensures Reweighed(old(Current().Used()), Current().Used(), total)
      ensures var avg := Total(old(Current().Used())) / Current().sampleCount as real;
        if total > 0.0 then wSlow == Averaged(old(wSlow), avg, alphaSlow)
          && wFast == Averaged(old(wFast), avg, alphaFast)
        else wSlow == old(wSlow) && wFast == old(wFast)
    {
      hide Represents, Entered, Normalised, CellOf, Total, Reweighed;
      var current := Current();
      ReweighedIs(old(Current().Used()), total);
      if total > 0.0 {
        var wAvg := current.Divide(total);
        wAvg := wAvg / current.sampleCount as real;
        wSlow := if wSlow == 0.0 then wAvg else wSlow + alphaSlow * (wAvg - wSlow);
        wFast := if wFast == 0.0 then wAvg else wFast + alphaFast * (wAvg - wFast);
      } else {
        current.Level();
      }
    }

    // The new pose of one round.
    method DrawPose(a: seq<Sample>, c: seq<real>, diff: real, d: Draw) returns (pose: Pose)
      requires Cumulative(c, a) && Total(a) == 1.0 && Fair(d)
      ensures Drawn(a, diff, d, pose)
    {
      if d.chance < diff {
        pose := d.pose;
      } else {
        var i := Pick(a, c, d.pick);
        HitIsPositive(a, d.pick, i);
        assert a[i].weight > 0.0;
        pose := a[i].pose;
      }
    }

    /** There are enough samples for the cells they lie in. */
    ghost predicate Enough(s: seq<Sample>)
      requires |size| == 3 && (forall d :: 0 <= d < 3 ==> size[d] > 0.0) && popErr > 0.0
    {
      |s| > ResampleLimit(|Cells(s, size)|)
    }

    // Poses drawn one by one, with no stop before the last.
    ghost predicate Drawing(a: seq<Sample>, diff: real, draws: seq<Draw>, s: seq<Sample>)
      requires |size| == 3 && (forall d :: 0 <= d < 3 ==> size[d] > 0.0) && popErr > 0.0
    {
      && |s| <= |draws|
      && (forall k :: 0 <= k < |s| ==> Drawn(a, diff, draws[k], s[k].pose))
      && (forall n :: 0 < n < |s| ==> !Enough(s[..n]))
    }

    // Fills the other set until it has enough samples, or as many as it can hold.
    method DrawSamples(draws: seq<Draw>, diff: real) returns (total: real)
      requires Valid() && |draws| == maxSamples && (forall d :: d in draws ==> Fair(d))
        && Total(Current().Used()) == 1.0
      modifies Other()`samples, Other()`sampleCount, Other().kdTree
      ensures Valid() && Other().Indexed() && Other().sampleCount > 0 && total == Other().sampleCount as real
      ensures Drawing(old(Current().Used()), diff, draws, Other().Used())
      ensures Other().sampleCount == maxSamples || Enough(Other().Used())
      ensures forall k :: 0 <= k < Other().sampleCount ==> Other().Used()[k].weight == 1.0
    {
      hide Represents, Entered, CellOf, Total, Drawn, Enough, Drawing, Cumulative, Cells, Wanted,
        ParticleFilterKDTree.Valid;
      DrawingNone(Current().Used(), diff, draws);
      var setA, setB := Current(), Other();
      ghost var a := setA.Used();
      var c := Sums(setA.Used());
      setB.Clear();
      total := 0.0;
      while setB.sampleCount < maxSamples
        invariant Valid() && setB.Indexed() && total == setB.sampleCount as real
        invariant Drawing(a, diff, draws, setB.Used())
        invariant setB.sampleCount > 0 ==> setB.sampleCount < maxSamples ==> !Enough(setB.Used())
        invariant forall k :: 0 <= k < setB.sampleCount ==> setB.Used()[k].weight == 1.0
        decreases maxSamples - setB.sampleCount
      {
        ghost var before := setB.Used();
        var pose := DrawPose(setA.Used(), c, diff, draws[setB.sampleCount]);
        setB.Add(pose, 1.0);
        total := total + 1.0;
        DrawingNext(a, diff, draws, before, Sample(pose, 1.0));
        LeafCountIsCells(setB);
        EnoughIs(setB.Used());
        if setB.sampleCount > ResampleLimit(setB.kdTree.leafCount) {
          break;
        }
      }
    }

    lemma DrawingNone(a: seq<Sample>, diff: real, draws: seq<Draw>)
      requires |size| == 3 && (forall d :: 0 <= d < 3 ==> size[d] > 0.0) && popErr > 0.0
      ensures Drawing(a, diff, draws, [])
    {}

    lemma DrawingNext(a: seq<Sample>, diff: real, draws: seq<Draw>, s: seq<Sample>, e: Sample)
      requires |size| == 3 && (forall d :: 0 <= d < 3 ==> size[d] > 0.0) && popErr > 0.0
      requires Drawing(a, diff, draws, s) && |s| < |draws| && Drawn(a, diff, draws[|s|], e.pose)
        && (s != [] ==> !Enough(s))
      ensures Drawing(a, diff, draws, s + [e])
    {
      hide Drawn, Enough;
      var t := s + [e];
      forall n | 0 < n < |t| ensures !Enough(t[..n]) {
        assert t[..n] == s[..n];
        assert s[..|s|] == s;
      }
    }

    lemma EnoughIs(s: seq<Sample>)
      requires |size| == 3 && (forall d :: 0 <= d < 3 ==> size[d] > 0.0) && popErr > 0.0
      ensures Enough(s) <==> |s| > ResampleLimit(|Cells(s, size)|)
    {}

    // The other set's weights are made equal shares, and its clusters are found.
    method Finish(total: real)
      requires Valid() && Other().Indexed() && Other().sampleCount > 0 && total == Other().sampleCount as real
      requires forall k :: 0 <= k < Other().sampleCount ==> Other().Used()[k].weight == 1.0
      modifies Other(), Other().kdTree
      ensures Valid() && Other().Indexed() && Other().InGroups() && Normalised(Other().Used())
      ensures |Other().Used()| == old(|Other().Used()|)
      ensures forall k :: 0 <= k < |Other().Used()| ==>
        Other().Used()[k] == Sample(old(Other().Used())[k].pose, 1.0 / Other().sampleCount as real)
    {
      hide Represents, Entered, CellOf, Total, Normalised;
      var setB := Other();
      var _ := setB.Divide(total);
      EqualShares(setB.Used(), setB.sampleCount);
      setB.ClusterStatistics();
    }

    /**
     * Poses drawn from samples: weights are equal and one together, and the number is the first that is enough for
     * the cells the poses lie in, or the most there may be.
     */
    ghost predicate Resampled(a: seq<Sample>, diff: real, draws: seq<Draw>, t: seq<Sample>)
      requires |size| == 3 && (forall d :: 0 <= d < 3 ==> size[d] > 0.0) && popErr > 0.0
    {
      && Normalised(t) && 0 < |t| <= maxSamples && (forall k :: 0 <= k < |t| ==> t[k].weight == 1.0 / |t| as real)
      && Drawing(a, diff, draws, t) && (|t| == maxSamples || Enough(t))
      && (minSamples <= maxSamples ==> |t| == maxSamples || |t| > minSamples)
    }

    lemma ResampledIs(a: seq<Sample>, diff: real, draws: seq<Draw>, s: seq<Sample>, t: seq<Sample>)
      requires |size| == 3 && (forall d :: 0 <= d < 3 ==> size[d] > 0.0) && popErr > 0.0
      requires Drawing(a, diff, draws, s) && 0 < |s| <= maxSamples && (|s| == maxSamples || Enough(s))
      requires Normalised(t) && |t| == |s| && forall k :: 0 <= k < |s| ==> t[k] == Sample(s[k].pose, 1.0 / |s| as real)
      ensures Resampled(a, diff, draws, t)
    {
      hide Drawing, Normalised, Cells;
      EnoughIs(t);
      SamePoses(a, diff, draws, s, t);
    }

    /**
     * Resampling: the other set becomes the current one, with its groups its clusters. The set drawn from stays
     * as it is.
     */
    method UpdateResample(draws: seq<Draw>)
      requires Valid() && |draws| == maxSamples && (forall d :: d in draws ==> Fair(d)) && Normalised(Current().Used())
      modifies this`wSlow, this`wFast, this`currentSet, Other(), Other().kdTree
      ensures Valid() && Current() == old(Other()) && Current().Indexed()
      ensures Resampled(old(Current().Used()), WDiff(old(wSlow), old(wFast)), draws, Current().Used())
      ensures Current().InGroups()
      ensures 0.0 <= old(wSlow) <= old(wFast) ==> OnlyFrom(old(Current().Used()), Current().Used())
      ensures if WDiff(old(wSlow), old(wFast)) > 0.0 then wSlow == wFast == 0.0
        else wSlow == old(wSlow) && wFast == old(wFast)
    {
      hide Represents, Entered, Drawing, Enough, Clusters.Clustered, Grouped, Normalised, WDiff, Resampled, OnlyFrom,
        Total, ParticleFilterKDTree.Valid;
      NormalIsOne(Current().Used());
      var wDiff := WDiff(wSlow, wFast);
      var total := DrawSamples(draws, wDiff);
      ghost var ones := Other().Used();
      if wDiff > 0.0 {
        wSlow, wFast := 0.0, 0.0;
      }
      Finish(total);
      ResampledIs(old(Current().Used()), wDiff, draws, ones, Other().Used());
      if 0.0 <= old(wSlow) <= old(wFast) {
        FreshWhenFalling(old(wSlow), old(wFast));
        NothingFresh(old(Current().Used()), wDiff, draws, Other().Used());
      }
      currentSet := (currentSet + 1) % 2;
    }

    /** While the fast average is not below the slow one no pose is drawn afresh. */
    lemma NothingFresh(a: seq<Sample>, diff: real, draws: seq<Draw>, t: seq<Sample>)
      requires |size| == 3 && (forall d :: 0 <= d < 3 ==> size[d] > 0.0) && popErr > 0.0
      requires Resampled(a, diff, draws, t) && diff == 0.0 && forall d :: d in draws ==> Fair(d)
      ensures OnlyFrom(a, t)
    {
      hide Enough, Normalised;
      forall k | 0 <= k < |t| ensures IsPoseOf(a, t[k].pose) {
        assert draws[k] in draws && Drawn(a, diff, draws[k], t[k].pose);
        var i: nat :| Hits(a, draws[k].pick, i) && t[k].pose == a[i].pose;
        HitIsPositive(a, draws[k].pick, i);
        assert a[i].weight > 0.0;
      }
    }

    // What was drawn does not depend on weights.
    lemma SamePoses(a: seq<Sample>, diff: real, draws: seq<Draw>, s: seq<Sample>, t: seq<Sample>)
      requires |size| == 3 && (forall d :: 0 <= d < 3 ==> size[d] > 0.0) && popErr > 0.0
      requires |s| == |t| && forall k :: 0 <= k < |s| ==> s[k].pose == t[k].pose
      requires Drawing(a, diff, draws, s)
      ensures Drawing(a, diff, draws, t) && (Enough(s) <==> Enough(t))
    {
      hide Drawn, CellOf;
      assert Cells(s, size) == Cells(t, size);
      forall n | 0 < n < |t| ensures !Enough(t[..n]) {
        assert Cells(s[..n], size) == Cells(t[..n], size);
        assert !Enough(s[..n]);
      }
    }
  }

  // A pose of a sample with some weight.
  ghost predicate IsPoseOf(a: seq<Sample>, pose: Pose) {
    exists i :: 0 <= i < |a| && a[i].weight > 0.0 && pose == a[i].pose
  }

  ghost predicate OnlyFrom(a: seq<Sample>, t: seq<Sample>) {
    forall k :: 0 <= k < |t| ==> IsPoseOf(a, t[k].pose)
  }

  lemma NormalIsOne(s: seq<Sample>)
    requires Normalised(s)
    ensures Total(s) == 1.0
  {}

  lemma LeafCountIsCells(s: SampleSet)
    requires s.Valid() && s.Indexed()
    ensures s.kdTree.leafCount == |Cells(s.Used(), s.kdTree.size)|
  {
    EnteredCells(s.Used(), s.kdTree.inserted, s.kdTree.size);
  }
}
