// The table of a memory pool as a value: blocks in an arena, the order they lie in, and the
// gaps between them.
module PoolLayout {
  import opened Options
  import opened Checksum
  import opened PoolSpec

  // An entry of the table: whether it is in use, where its block starts, how long it is.
  datatype Block = Block(used: bool, ptr: nat, size: nat)

  function End(b: Block): nat {
    b.ptr + b.size
  }

  ghost predicate Apart(a: Block, b: Block) {
    End(a) <= b.ptr || End(b) <= a.ptr
  }

  ghost predicate Inner(t: seq<Block>, i: nat) {
    0 < i < |t| - 1 && t[i].used
  }

  /**
   * The first and the last entry mark the two ends of the arena for good; the blocks in use in
   * between are not empty, lie inside the arena and do not overlap.
   */
  ghost predicate Layout(t: seq<Block>, memorySize: nat) {
    && |t| >= 3
    && t[0] == Block(true, 0, 0)
    && t[|t| - 1] == Block(true, memorySize, 0)
    && (forall i: nat :: Inner(t, i) ==> 0 < t[i].size && End(t[i]) <= memorySize)
    && (forall i: nat, j: nat :: Inner(t, i) && Inner(t, j) && i != j ==> Apart(t[i], t[j]))
  }

  // The contents of the blocks in use, by table index.
  ghost function Contents(t: seq<Block>, mem: seq<Byte>): map<nat, seq<Byte>>
    requires Layout(t, |mem|)
  {
    map i | 0 <= i < |t| && Inner(t, i) :: mem[t[i].ptr..End(t[i])]
  }

  // The indices in use among the first n, ascending, and what their blocks hold in all.
  function UsedIndices(t: seq<Block>, n: nat): (o: seq<nat>)
    requires n <= |t|
    ensures |o| <= n && Indices(t, o)
  {
    if n == 0 then [] else if t[n - 1].used then UsedIndices(t, n - 1) + [n - 1] else UsedIndices(t, n - 1)
  }

  // The indices in use below n, each once and in order.
  ghost predicate Ascending(t: seq<Block>, o: seq<nat>, n: nat)
    requires n <= |t|
  {
    && (forall k :: 0 <= k < |o| ==> o[k] < n && t[o[k]].used)
    && (forall j, k :: 0 <= j < k < |o| ==> o[j] < o[k])
    && (forall i :: 0 <= i < n && t[i].used ==> i in o)
  }

  lemma AscendingMore(t: seq<Block>, o: seq<nat>, n: nat)
    requires n < |t| && Ascending(t, o, n)
    ensures Ascending(t, if t[n].used then o + [n] else o, n + 1)
  {
    if t[n].used {
      var more := o + [n];
      forall i | 0 <= i < n + 1 && t[i].used ensures i in more {
        if i < n {
          assert i in o;
        } else {
          assert more[|o|] == n;
        }
      }
    }
  }

  lemma {:induction false} UsedIndicesListed(t: seq<Block>, n: nat)
    requires n <= |t|
    ensures Ascending(t, UsedIndices(t, n), n)
  {
    hide Ascending;
    if n > 0 {
      UsedIndicesListed(t, n - 1);
      AscendingMore(t, UsedIndices(t, n - 1), n - 1);
    } else {
      AscendingNone(t);
    }
  }

  lemma AscendingNone(t: seq<Block>)
    ensures Ascending(t, [], 0)
  {}

  ghost predicate Indices(t: seq<Block>, o: seq<nat>) {
    forall k :: 0 <= k < |o| ==> o[k] < |t|
  }

  function SumSizes(t: seq<Block>, o: seq<nat>): nat
    requires Indices(t, o)
  {
    if o == [] then 0 else SumSizes(t, o[..|o| - 1]) + t[o[|o| - 1]].size
  }

  lemma SumSnoc(t: seq<Block>, o: seq<nat>, i: nat)
    requires Indices(t, o) && i < |t|
    ensures Indices(t, o + [i]) && SumSizes(t, o + [i]) == SumSizes(t, o) + t[i].size
  {
    assert (o + [i])[..|o|] == o;
  }

  lemma {:induction false} SumPrefix(t: seq<Block>, o: seq<nat>, k: nat)
    requires Indices(t, o) && k < |o|
    ensures SumSizes(t, o[..k + 1]) == SumSizes(t, o[..k]) + t[o[k]].size
  {
    assert o[..k + 1] == o[..k] + [o[k]];
    SumSnoc(t, o[..k], o[k]);
  }

  /** Exchanging two neighbours leaves the sum alone. */
  lemma {:induction false} SumSwap(t: seq<Block>, o: seq<nat>, j: nat)
    requires Indices(t, o) && j + 1 < |o|
    ensures Indices(t, Swapped(o, j)) && SumSizes(t, Swapped(o, j)) == SumSizes(t, o)
  {
    var p := Swapped(o, j);
    if j + 2 == |o| {
      assert p[..j] == o[..j] && p[..|o| - 1] == o[..j] + [o[j + 1]] && o[..|o| - 1] == o[..j] + [o[j]];
      SumSnoc(t, o[..j], o[j + 1]);
      SumSnoc(t, o[..j], o[j]);
    } else {
      assert p[..|o| - 1] == Swapped(o[..|o| - 1], j);
      SumSwap(t, o[..|o| - 1], j);
    }
  }

  // One index comes before another in the sorted list.
  ghost predicate Before(t: seq<Block>, a: nat, b: nat)
    requires a < |t| && b < |t|
  {
    t[a].ptr < t[b].ptr || (t[a].ptr == t[b].ptr && a < b)
  }

  ghost predicate Sorted(t: seq<Block>, o: seq<nat>)
    requires Indices(t, o)
  {
    forall j, k :: 0 <= j < k < |o| ==> Before(t, o[j], o[k])
  }

  ghost predicate Lists(t: seq<Block>, o: seq<nat>) {
    && Indices(t, o)
    && (forall k :: 0 <= k < |o| ==> t[o[k]].used)
    && (forall i :: 0 <= i < |t| && t[i].used ==> i in o)
  }

  /** The blocks in use in address order, from one end of the arena to the other. */
  ghost predicate Chain(t: seq<Block>, o: seq<nat>) {
    && Lists(t, o)
    && |o| >= 2 && o[0] == 0 && o[|o| - 1] == |t| - 1
    && (forall j, k :: 0 <= j < k < |o| ==> o[j] != o[k])
    && (forall k :: 0 <= k < |o| - 1 ==> End(t[o[k]]) <= t[o[k + 1]].ptr)
  }

  function Gap(t: seq<Block>, o: seq<nat>, k: nat): int
    requires Indices(t, o) && k + 1 < |o|
  {
    t[o[k + 1]].ptr - End(t[o[k]])
  }

  lemma SortedIsChain(t: seq<Block>, o: seq<nat>, memorySize: nat)
    requires Layout(t, memorySize) && Lists(t, o) && Sorted(t, o)
    ensures Chain(t, o)
  {
    var n := |t| - 1;
    var p :| 0 <= p < |o| && o[p] == 0;
    assert o[0] == 0;
    var q :| 0 <= q < |o| && o[q] == n;
    var last := o[|o| - 1];
    assert t[last].ptr <= memorySize by {
      assert last == 0 || last == n || Inner(t, last);
    }
    assert last == n;
    forall k | 0 <= k < |o| - 1
      ensures End(t[o[k]]) <= t[o[k + 1]].ptr
    {
      var a, b := o[k], o[k + 1];
      assert Before(t, a, b) && Before(t, o[0], b) && Before(t, a, o[|o| - 1]);
      if a != 0 && b != n {
        assert Inner(t, a) && Inner(t, b) && Apart(t[a], t[b]);
      }
    }
  }

  lemma {:induction false} ChainOrder(t: seq<Block>, o: seq<nat>, j: nat, k: nat)
    requires Chain(t, o) && j < k < |o|
    ensures End(t[o[j]]) <= t[o[k]].ptr
    decreases k - j
  {
    if j + 1 < k { ChainOrder(t, o, j + 1, k); }
  }

  /** Blocks lying one behind the other make up a layout. */
  lemma ChainIsLayout(t: seq<Block>, o: seq<nat>, memorySize: nat)
    requires |t| >= 3 && Chain(t, o)
    requires t[0] == Block(true, 0, 0) && t[|t| - 1] == Block(true, memorySize, 0)
    requires forall i: nat :: Inner(t, i) ==> 0 < t[i].size
    ensures Layout(t, memorySize)
  {
    forall i: nat | Inner(t, i) ensures End(t[i]) <= memorySize {
      var k :| 0 <= k < |o| && o[k] == i;
      ChainOrder(t, o, k, |o| - 1);
    }
    forall i: nat, j: nat | Inner(t, i) && Inner(t, j) && i != j ensures Apart(t[i], t[j]) {
      var k :| 0 <= k < |o| && o[k] == i;
      var l :| 0 <= l < |o| && o[l] == j;
      if k < l { ChainOrder(t, o, k, l); } else { ChainOrder(t, o, l, k); }
    }
  }

  // Bytes copied over part of an arena.
  function Overwrite(mem: seq<Byte>, at: nat, data: seq<Byte>): (m: seq<Byte>)
    requires at + |data| <= |mem|
    ensures |m| == |mem|
  {
    mem[..at] + data + mem[at + |data|..]
  }

  lemma OverwriteElsewhere(mem: seq<Byte>, at: nat, data: seq<Byte>, lo: nat, hi: nat)
    requires at + |data| <= |mem| && lo <= hi <= |mem| && (hi <= at || at + |data| <= lo)
    ensures Overwrite(mem, at, data)[lo..hi] == mem[lo..hi]
  {}

  lemma OverwriteInside(mem: seq<Byte>, at: nat, data: seq<Byte>, lo: nat, hi: nat)
    requires lo <= at && at + |data| <= hi <= |mem|
    ensures Overwrite(mem, at, data)[lo..hi] == Overwrite(mem[lo..hi], at - lo, data)
  {}

  /** Writing inside one block changes that block's contents and no other's. */
  lemma StoreContents(t: seq<Block>, mem: seq<Byte>, slot: nat, offset: nat, data: seq<Byte>)
    requires Layout(t, |mem|) && Inner(t, slot) && offset + |data| <= t[slot].size
    ensures var was := Contents(t, mem);
      Contents(t, Overwrite(mem, t[slot].ptr + offset, data)) == was[slot := Overwrite(was[slot], offset, data)]
  {
    SlotInside(t, |mem|, slot);
    HeldIsInner(t, mem, slot);
    var m := Overwrite(mem, t[slot].ptr + offset, data);
    OverwriteInside(mem, t[slot].ptr + offset, data, t[slot].ptr, End(t[slot]));
    hide Overwrite, Layout;
    forall i: nat | i in Contents(t, mem) && i != slot
      ensures i in Contents(t, m) && Contents(t, m)[i] == Contents(t, mem)[i]
    {
      StoreElsewhere(t, mem, slot, offset, data, i);
    }
    assert Contents(t, m).Keys == Contents(t, mem).Keys;
  }

  lemma SlotInside(t: seq<Block>, memorySize: nat, slot: nat)
    requires Layout(t, memorySize) && Inner(t, slot)
    ensures End(t[slot]) <= memorySize
  {}

  lemma StoreElsewhere(t: seq<Block>, mem: seq<Byte>, slot: nat, offset: nat, data: seq<Byte>, i: nat)
    requires Layout(t, |mem|) && Inner(t, slot) && offset + |data| <= t[slot].size && i in Contents(t, mem) && i != slot
    ensures var m := Overwrite(mem, t[slot].ptr + offset, data);
      i in Contents(t, m) && Contents(t, m)[i] == Contents(t, mem)[i]
  {
    assert Apart(t[i], t[slot]);
    OverwriteElsewhere(mem, t[slot].ptr + offset, data, t[i].ptr, End(t[i]));
  }

  // A rearrangement of a list that has kept equal addresses in index order.
  ghost predicate Arranged(t: seq<Block>, o: seq<nat>, p: seq<nat>) {
    && Indices(t, p)
    && multiset(p) == multiset(o)
    && (forall j, k :: 0 <= j < k < |p| && t[p[j]].ptr == t[p[k]].ptr ==> p[j] < p[k])
  }

  function Swapped<T>(p: seq<T>, j: nat): seq<T>
    requires j + 1 < |p|
  {
    p[j := p[j + 1]][j + 1 := p[j]]
  }

  lemma ArrangedSwap(t: seq<Block>, o: seq<nat>, p: seq<nat>, j: nat)
    requires Arranged(t, o, p) && j + 1 < |p| && t[p[j]].ptr > t[p[j + 1]].ptr
    ensures Arranged(t, o, Swapped(p, j))
  {
    var q := Swapped(p, j);
    SwappedMultiset(p, j);
    forall a, b | 0 <= a < b < |q| && t[q[a]].ptr == t[q[b]].ptr
      ensures q[a] < q[b]
    {
      var x := if a == j then j + 1 else if a == j + 1 then j else a;
      var y := if b == j then j + 1 else if b == j + 1 then j else b;
      assert q[a] == p[x] && q[b] == p[y] && x < y;
    }
  }

  lemma SwappedMultiset<T>(p: seq<T>, j: nat)
    requires j + 1 < |p|
    ensures multiset(Swapped(p, j)) == multiset(p)
  {
    assert p == p[..j] + [p[j], p[j + 1]] + p[j + 2..];
    assert Swapped(p, j) == p[..j] + [p[j + 1], p[j]] + p[j + 2..];
  }

  lemma ArrangedIsChain(t: seq<Block>, o: seq<nat>, p: seq<nat>, memorySize: nat)
    requires Layout(t, memorySize) && Ascending(t, o, |t|) && Arranged(t, o, p)
    requires forall j, k :: 0 <= j < k < |p| ==> t[p[j]].ptr <= t[p[k]].ptr
    ensures Chain(t, p)
  {
    hide Layout, Chain, Lists;
    ArrangedLists(t, o, p);
    ArrangedSorted(t, o, p);
    SortedIsChain(t, p, memorySize);
  }

  lemma ArrangedSorted(t: seq<Block>, o: seq<nat>, p: seq<nat>)
    requires Arranged(t, o, p) && forall j, k :: 0 <= j < k < |p| ==> t[p[j]].ptr <= t[p[k]].ptr
    ensures Indices(t, p) && Sorted(t, p)
  {}

  lemma ArrangedLists(t: seq<Block>, o: seq<nat>, p: seq<nat>)
    requires Ascending(t, o, |t|) && Arranged(t, o, p)
    ensures Lists(t, p)
  {
    forall k | 0 <= k < |p| ensures t[p[k]].used {
      assert p[k] in multiset(p);
    }
    forall i | 0 <= i < |t| && t[i].used ensures i in p {
      assert i in multiset(o);
    }
  }

  // One exchange of the sort keeps everything known about the list.
  ghost predicate Pass(t: seq<Block>, o: seq<nat>, p: seq<nat>, k: int, j: nat) {
    && Indices(t, o) && Arranged(t, o, p) && SumSizes(t, p) == SumSizes(t, o)
    && Settled(t, p, k) && Highest(t, p, j)
  }

  lemma PassStep(t: seq<Block>, o: seq<nat>, p: seq<nat>, k: int, j: nat)
    requires Pass(t, o, p, k, j) && j + 1 < |p| && j + 1 < k
    ensures Pass(t, o, if t[p[j]].ptr > t[p[j + 1]].ptr then Swapped(p, j) else p, k, j + 1)
  {
    if t[p[j]].ptr > t[p[j + 1]].ptr {
      ArrangedSwap(t, o, p, j);
      SumSwap(t, p, j);
      SettledSwap(t, p, k, j);
    }
  }

  // From position k on, every address is at least as high as all before it.
  ghost predicate Settled(t: seq<Block>, p: seq<nat>, k: int)
    requires Indices(t, p)
  {
    forall i, j :: 0 <= i < j < |p| && k <= j ==> t[p[i]].ptr <= t[p[j]].ptr
  }

  ghost predicate Highest(t: seq<Block>, p: seq<nat>, j: nat)
    requires Indices(t, p)
  {
    j < |p| ==> forall i :: 0 <= i < j ==> t[p[i]].ptr <= t[p[j]].ptr
  }

  lemma SettledSwap(t: seq<Block>, p: seq<nat>, k: int, j: nat)
    requires Indices(t, p) && Settled(t, p, k) && Highest(t, p, j)
    requires j + 1 < |p| && j + 1 < k && t[p[j]].ptr > t[p[j + 1]].ptr
    ensures Settled(t, Swapped(p, j), k) && Highest(t, Swapped(p, j), j + 1)
  {}

  lemma PassDone(t: seq<Block>, o: seq<nat>, p: seq<nat>, k: nat)
    requires 0 < k <= |p| && Pass(t, o, p, k, k - 1)
    ensures Pass(t, o, p, k - 1, 0)
  {}

  function Exchanged(t: seq<Block>, p: seq<nat>, j: nat): (q: seq<nat>)
    requires Indices(t, p) && j + 1 < |p|
    ensures Indices(t, q) && |q| == |p|
  {
    if t[p[j]].ptr > t[p[j + 1]].ptr then Swapped(p, j) else p
  }

  // One pass over the neighbours from position j to the last unsettled one, and all passes.
  function BubblePass(t: seq<Block>, p: seq<nat>, j: nat, last: nat): (q: seq<nat>)
    requires Indices(t, p) && j <= last < |p|
    ensures Indices(t, q) && |q| == |p|
    decreases last - j
  {
    if j == last then p else BubblePass(t, Exchanged(t, p, j), j + 1, last)
  }

  function Bubbled(t: seq<Block>, p: seq<nat>, last: nat): (q: seq<nat>)
    requires Indices(t, p) && last < |p|
    ensures Indices(t, q) && |q| == |p|
    decreases last
  {
    if last == 0 then p else Bubbled(t, BubblePass(t, p, 0, last), last - 1)
  }

  lemma BubbleStep(t: seq<Block>, p: seq<nat>, j: nat, last: nat)
    requires Indices(t, p) && j < last < |p|
    ensures BubblePass(t, p, j, last) == BubblePass(t, Exchanged(t, p, j), j + 1, last)
  {}

  lemma BubbleEnd(t: seq<Block>, p: seq<nat>, last: nat)
    requires Indices(t, p) && last < |p|
    ensures BubblePass(t, p, last, last) == p
  {}

  lemma {:induction false} BubblePassKeeps(t: seq<Block>, o: seq<nat>, p: seq<nat>, j: nat, last: nat)
    requires Indices(t, p) && Pass(t, o, p, last + 1, j) && j <= last < |p|
    ensures Pass(t, o, BubblePass(t, p, j, last), last + 1, last)
    decreases last - j
  {
    hide Pass;
    if j < last {
      PassStep(t, o, p, last + 1, j);
      BubblePassKeeps(t, o, Exchanged(t, p, j), j + 1, last);
    }
  }

  lemma {:induction false} BubbledKeeps(t: seq<Block>, o: seq<nat>, p: seq<nat>, last: nat)
    requires Indices(t, p) && last < |p| && Pass(t, o, p, last + 1, 0)
    ensures Pass(t, o, Bubbled(t, p, last), 1, 0)
    decreases last
  {
    hide Pass;
    if last > 0 {
      BubblePassKeeps(t, o, p, 0, last);
      PassDone(t, o, BubblePass(t, p, 0, last), last + 1);
      BubbledKeeps(t, o, BubblePass(t, p, 0, last), last - 1);
    }
  }

  /** The sort puts the blocks in use into address order, end marks included. */
  lemma BubbledIsChain(t: seq<Block>, o: seq<nat>, memorySize: nat)
    requires Layout(t, memorySize) && o == UsedIndices(t, |t|)
    ensures |o| >= 2 && Chain(t, Bubbled(t, o, |o| - 1))
    ensures SumSizes(t, Bubbled(t, o, |o| - 1)) == SumSizes(t, o)
  {
    hide Pass, Chain, Ascending, Layout, UsedIndices, SumSizes;
    UsedIndicesListed(t, |t|);
    EndsListed(t, o, memorySize);
    StartOfSort(t, o);
    BubbledKeeps(t, o, o, |o| - 1);
    EndOfSort(t, o, Bubbled(t, o, |o| - 1), memorySize);
  }

  lemma EndsListed(t: seq<Block>, o: seq<nat>, memorySize: nat)
    requires Layout(t, memorySize) && Ascending(t, o, |t|)
    ensures |o| >= 2
  {
    assert 0 in o && |t| - 1 in o;
  }

  lemma StartOfSort(t: seq<Block>, o: seq<nat>)
    requires Ascending(t, o, |t|)
    ensures Pass(t, o, o, |o|, 0)
  {}

  lemma EndOfSort(t: seq<Block>, o: seq<nat>, p: seq<nat>, memorySize: nat)
    requires Layout(t, memorySize) && Ascending(t, o, |t|) && Pass(t, o, p, 1, 0)
    ensures Indices(t, o) && Chain(t, p) && SumSizes(t, p) == SumSizes(t, o)
  {
    hide Layout, Ascending, Chain;
    ArrangedIsChain(t, o, p, memorySize);
  }

  // ------------------------------------------------------------ gaps

  /** A stretch of free bytes from the end of one block to the start of another. */
  ghost predicate Hole(t: seq<Block>, p: nat, q: nat) {
    && p < q
    && (exists a :: 0 <= a < |t| && t[a].used && End(t[a]) == p)
    && (exists b :: 0 <= b < |t| && t[b].used && t[b].ptr == q)
    && (forall c :: 0 <= c < |t| && t[c].used ==> End(t[c]) <= p || q <= t[c].ptr)
  }

  // The stretch from p on is the tightest of those long enough, and the lowest of the tightest.
  ghost predicate BestFit(t: seq<Block>, p: nat, size: nat) {
    exists q: nat :: Hole(t, p, q) && p + size <= q
      && forall p': nat, q': nat :: Hole(t, p', q') && p' + size <= q' ==>
        q - p < q' - p' || (q - p == q' - p' && p <= p')
  }

  ghost predicate SomeFit(t: seq<Block>, size: nat) {
    exists p: nat, q: nat :: Hole(t, p, q) && p + size <= q
  }

  lemma GapIsHole(t: seq<Block>, o: seq<nat>, k: nat)
    requires Chain(t, o) && k + 1 < |o| && Gap(t, o, k) > 0
    ensures Hole(t, End(t[o[k]]), t[o[k + 1]].ptr)
  {
    forall c | 0 <= c < |t| && t[c].used
      ensures End(t[c]) <= End(t[o[k]]) || t[o[k + 1]].ptr <= t[c].ptr
    {
      var m :| 0 <= m < |o| && o[m] == c;
      if m < k { ChainOrder(t, o, m, k); }
      if m > k + 1 { ChainOrder(t, o, k + 1, m); }
    }
  }

  // The last block that ends at a given address.
  lemma LastEnding(t: seq<Block>, o: seq<nat>, p: nat, x: nat, y: nat) returns (k: nat)
    requires Chain(t, o) && x < y < |o| && End(t[o[x]]) == p && p < t[o[y]].ptr
    ensures x <= k < y && End(t[o[k]]) == p && p < End(t[o[k + 1]])
  {
    k := x;
    while End(t[o[k + 1]]) <= p
      invariant x <= k < y && End(t[o[k]]) == p
      decreases y - k
    {
      ChainOrder(t, o, x, k + 1);
      k := k + 1;
    }
  }

  // The block in use that ends, or starts, a free stretch.
  lemma UsedInOrder(t: seq<Block>, o: seq<nat>, a: nat) returns (k: nat)
    requires Chain(t, o) && a < |t| && t[a].used
    ensures k < |o| && o[k] == a
  {
    k :| 0 <= k < |o| && o[k] == a;
  }

  lemma HoleEnds(t: seq<Block>, o: seq<nat>, p: nat, q: nat) returns (x: nat, y: nat)
    requires Chain(t, o) && Hole(t, p, q)
    ensures x < y < |o| && End(t[o[x]]) == p && t[o[y]].ptr == q
  {
    hide Chain;
    ChainIndices(t, o);
    var a :| 0 <= a < |t| && t[a].used && End(t[a]) == p;
    var b :| 0 <= b < |t| && t[b].used && t[b].ptr == q;
    x := UsedInOrder(t, o, a);
    y := UsedInOrder(t, o, b);
    if y < x { ChainOrder(t, o, y, x); }
  }

  lemma HoleAvoids(t: seq<Block>, p: nat, q: nat, c: nat)
    requires Hole(t, p, q) && c < |t| && t[c].used
    ensures End(t[c]) <= p || q <= t[c].ptr
  {}

  lemma HoleIsGap(t: seq<Block>, o: seq<nat>, p: nat, q: nat) returns (k: nat)
    requires Chain(t, o) && Hole(t, p, q)
    ensures k + 1 < |o| && o[k] < |t| && o[k + 1] < |t| && End(t[o[k]]) == p && t[o[k + 1]].ptr == q
  {
    var x, y := HoleEnds(t, o, p, q);
    k := LastEnding(t, o, p, x, y);
    HoleAvoids(t, p, q, o[k + 1]);
    if k + 1 < y { ChainOrder(t, o, k + 1, y); }
  }

  // What a search over the gaps knows after the first n of them.
  ghost predicate Tightest(t: seq<Block>, o: seq<nat>, n: nat, size: nat, best: int)
    requires Indices(t, o) && n < |o|
  {
    if best < 0 then
      forall m :: 0 <= m < n ==> Gap(t, o, m) < size
    else
      best < n && Gap(t, o, best) >= size &&
      forall m :: 0 <= m < n && Gap(t, o, m) >= size ==>
        Gap(t, o, best) < Gap(t, o, m) || (Gap(t, o, best) == Gap(t, o, m) && best <= m)
  }

  lemma StartOfSearch(t: seq<Block>, o: seq<nat>, size: nat)
    requires Indices(t, o) && |o| > 0
    ensures Tightest(t, o, 0, size, -1)
  {}

  lemma TightestNext(t: seq<Block>, o: seq<nat>, n: nat, size: nat, was: int, best: int)
    requires Indices(t, o) && n + 1 < |o| && was < n && Tightest(t, o, n, size, was)
    requires best == if Gap(t, o, n) >= size && (was < 0 || Gap(t, o, was) > Gap(t, o, n)) then n else was
    ensures Tightest(t, o, n + 1, size, best)
  {}

  /** The tightest gap is the best fit, and no gap at all means no fit at all. */
  lemma TightestFits(t: seq<Block>, o: seq<nat>, size: nat, best: int)
    requires Chain(t, o) && size > 0 && Tightest(t, o, |o| - 1, size, best)
    ensures best < 0 ==> !SomeFit(t, size)
    ensures best >= 0 ==> BestFit(t, End(t[o[best]]), size) && SomeFit(t, size)
  {
    forall p: nat, q: nat | Hole(t, p, q) && p + size <= q
      ensures best >= 0
      ensures Gap(t, o, best) < q - p || (Gap(t, o, best) == q - p && End(t[o[best]]) <= p)
    {
      var k := HoleIsGap(t, o, p, q);
      assert Gap(t, o, k) == q - p;
      if best < k { ChainOrder(t, o, best, k); }
    }
    if best >= 0 { GapIsHole(t, o, best); }
  }

  // Free bytes below the start of the next block.
  function FreeBelow(t: seq<Block>, o: seq<nat>, k: nat): int
    requires Indices(t, o) && k < |o|
  {
    t[o[k]].ptr - SumSizes(t, o[..k])
  }

  lemma FreeBelowNext(t: seq<Block>, o: seq<nat>, k: nat)
    requires Indices(t, o) && k + 1 < |o|
    ensures FreeBelow(t, o, k + 1) == FreeBelow(t, o, k) + Gap(t, o, k)
  {
    SumPrefix(t, o, k);
  }

  /** In the whole arena, what is not held by a block is free. */
  lemma FreeInAll(t: seq<Block>, o: seq<nat>, memorySize: nat)
    requires Layout(t, memorySize) && Chain(t, o)
    ensures FreeBelow(t, o, |o| - 1) == memorySize - SumSizes(t, o)
  {
    hide Layout;
    EndMarks(t, memorySize);
  }

  // ------------------------------------------------------------ moving and placing

  // Block o[i + 1] pushed down to the end of block o[i].
  function SlidTable(t: seq<Block>, o: seq<nat>, i: nat): (u: seq<Block>)
    requires Indices(t, o) && i + 1 < |o|
    ensures |u| == |t|
  {
    t[o[i + 1] := t[o[i + 1]].(ptr := End(t[o[i]]))]
  }

  function SlidMemory(t: seq<Block>, mem: seq<Byte>, o: seq<nat>, i: nat): (m: seq<Byte>)
    requires Indices(t, o) && i + 1 < |o|
    requires End(t[o[i]]) <= t[o[i + 1]].ptr && End(t[o[i + 1]]) <= |mem|
    ensures |m| == |mem|
  {
    Overwrite(mem, End(t[o[i]]), mem[t[o[i + 1]].ptr..End(t[o[i + 1]])])
  }

  lemma SlideKeepsOrder(t: seq<Block>, o: seq<nat>, i: nat)
    requires Chain(t, o) && i + 2 < |o|
    ensures Indices(t, o) && Chain(SlidTable(t, o, i), o)
  {
    var u := SlidTable(t, o, i);
    forall k | 0 <= k < |o| - 1 ensures End(u[o[k]]) <= u[o[k + 1]].ptr {
      assert End(t[o[k]]) <= t[o[k + 1]].ptr;
      assert End(t[o[i]]) <= t[o[i + 1]].ptr;
    }
  }

  // The block moved is neither end mark.
  lemma SlideSparesEnds(t: seq<Block>, o: seq<nat>, i: nat)
    requires Chain(t, o) && i + 2 < |o|
    ensures Indices(t, o) && o[i + 1] != 0 && o[i + 1] != |t| - 1
  {
    assert o[i + 1] != o[0] && o[i + 1] != o[|o| - 1];
  }

  lemma SlideKeepsSizes(t: seq<Block>, o: seq<nat>, i: nat, memorySize: nat)
    requires Layout(t, memorySize) && Indices(t, o) && i + 2 < |o|
    ensures forall j: nat :: Inner(SlidTable(t, o, i), j) ==> 0 < SlidTable(t, o, i)[j].size
  {
    forall j: nat | Inner(SlidTable(t, o, i), j) ensures 0 < SlidTable(t, o, i)[j].size {
      assert Inner(t, j);
    }
  }

  lemma SlideKeepsChain(t: seq<Block>, o: seq<nat>, i: nat, memorySize: nat)
    requires Layout(t, memorySize) && Chain(t, o) && i + 2 < |o|
    ensures Indices(t, o) && Chain(SlidTable(t, o, i), o) && Layout(SlidTable(t, o, i), memorySize)
  {
    hide Layout, Chain, Inner;
    SlideKeepsOrder(t, o, i);
    SlideSparesEnds(t, o, i);
    EndMarks(t, memorySize);
    SlideKeepsSizes(t, o, i, memorySize);
    ChainIsLayout(SlidTable(t, o, i), o, memorySize);
  }

  // A block that is not the one moved lies below or above all that is overwritten.
  lemma SlideSpares(t: seq<Block>, o: seq<nat>, i: nat, k: nat)
    requires Chain(t, o) && i + 1 < |o| && k < |o| && k != i + 1
    ensures Indices(t, o)
    ensures End(t[o[k]]) <= End(t[o[i]]) || End(t[o[i + 1]]) <= t[o[k]].ptr
  {
    if k < i { ChainOrder(t, o, k, i); }
    if k > i + 1 { ChainOrder(t, o, i + 1, k); }
  }

  lemma OrderInside(t: seq<Block>, o: seq<nat>, k: nat, memorySize: nat)
    requires Layout(t, memorySize) && Chain(t, o) && k < |o|
    ensures Indices(t, o) && End(t[o[k]]) <= memorySize
  {
    hide Layout;
    EndMarks(t, memorySize);
    if k < |o| - 1 { ChainOrder(t, o, k, |o| - 1); }
  }

  lemma SlideKeepsBytes(t: seq<Block>, mem: seq<Byte>, o: seq<nat>, i: nat, k: nat)
    requires Layout(t, |mem|) && Chain(t, o) && i + 2 < |o| && k < |o|
    requires Indices(t, o) && End(t[o[i]]) <= t[o[i + 1]].ptr && End(t[o[i + 1]]) <= |mem|
    ensures SameBytes(t, mem, SlidTable(t, o, i), SlidMemory(t, mem, o, i), o[k])
  {
    hide Layout, Overwrite;
    OrderInside(t, o, k, |mem|);
    var at, data := End(t[o[i]]), mem[t[o[i + 1]].ptr..End(t[o[i + 1]])];
    if k == i + 1 {
      OverwriteInside(mem, at, data, at, at + |data|);
      OverwriteAll(mem[at..at + |data|], data);
    } else {
      SlideSpares(t, o, i, k);
      OverwriteElsewhere(mem, at, data, t[o[k]].ptr, End(t[o[k]]));
    }
  }

  lemma OverwriteAll(mem: seq<Byte>, data: seq<Byte>)
    requires |mem| == |data|
    ensures Overwrite(mem, 0, data) == data
  {}

  // A block in use holds the same bytes, wherever it lies.
  ghost predicate SameBytes(t: seq<Block>, mem: seq<Byte>, u: seq<Block>, m: seq<Byte>, j: nat) {
    && j < |t| == |u| && End(t[j]) <= |mem| && End(u[j]) <= |m|
    && m[u[j].ptr..End(u[j])] == mem[t[j].ptr..End(t[j])]
  }

  ghost predicate SameInner(t: seq<Block>, u: seq<Block>) {
    |u| == |t| && forall j: nat :: Inner(u, j) <==> Inner(t, j)
  }

  ghost predicate AllSameBytes(t: seq<Block>, mem: seq<Byte>, u: seq<Block>, m: seq<Byte>) {
    forall j: nat :: Inner(t, j) ==> SameBytes(t, mem, u, m, j)
  }

  lemma SameContents(t: seq<Block>, mem: seq<Byte>, u: seq<Block>, m: seq<Byte>)
    requires Layout(t, |mem|) && Layout(u, |m|) && SameInner(t, u) && AllSameBytes(t, mem, u, m)
    ensures Contents(u, m) == Contents(t, mem)
  {
    hide Layout;
    forall j: nat ensures j in Contents(u, m) <==> j in Contents(t, mem) {
      HeldIsInner(t, mem, j);
      HeldIsInner(u, m, j);
    }
    forall j: nat | j in Contents(t, mem) ensures j in Contents(u, m) && Contents(u, m)[j] == Contents(t, mem)[j] {
      HeldIsInner(t, mem, j);
      assert SameBytes(t, mem, u, m, j);
    }
  }

  // The place of a block in use in the address order.
  lemma PlaceInOrder(t: seq<Block>, o: seq<nat>, j: nat) returns (k: nat)
    requires Chain(t, o) && Inner(t, j)
    ensures k < |o| && o[k] == j
  {
    k :| 0 <= k < |o| && o[k] == j;
  }

  lemma SlideKeepsInner(t: seq<Block>, o: seq<nat>, i: nat)
    requires Indices(t, o) && i + 1 < |o|
    ensures SameInner(t, SlidTable(t, o, i))
  {}

  lemma SlideKeepsAllBytes(t: seq<Block>, mem: seq<Byte>, o: seq<nat>, i: nat)
    requires Layout(t, |mem|) && Chain(t, o) && i + 2 < |o|
    requires Indices(t, o) && End(t[o[i]]) <= t[o[i + 1]].ptr && End(t[o[i + 1]]) <= |mem|
    ensures AllSameBytes(t, mem, SlidTable(t, o, i), SlidMemory(t, mem, o, i))
  {
    hide Layout, Chain, SlidTable, SlidMemory, SameBytes;
    var u, m := SlidTable(t, o, i), SlidMemory(t, mem, o, i);
    forall j: nat | Inner(t, j) ensures SameBytes(t, mem, u, m, j) {
      var k := PlaceInOrder(t, o, j);
      SlideKeepsBytes(t, mem, o, i, k);
    }
  }

  // Neighbours in the order lie one behind the other.
  lemma ChainNext(t: seq<Block>, o: seq<nat>, k: nat)
    requires Chain(t, o) && k + 1 < |o|
    ensures Indices(t, o) && End(t[o[k]]) <= t[o[k + 1]].ptr
  {}

  /** Pushing a block down moves its bytes along and touches no other block's bytes. */
  lemma SlideKeepsContents(t: seq<Block>, mem: seq<Byte>, o: seq<nat>, i: nat)
    requires Layout(t, |mem|) && Chain(t, o) && i + 2 < |o|
    ensures Indices(t, o) && Layout(SlidTable(t, o, i), |mem|) && Chain(SlidTable(t, o, i), o)
    ensures End(t[o[i]]) <= t[o[i + 1]].ptr && End(t[o[i + 1]]) <= |mem|
    ensures Contents(SlidTable(t, o, i), SlidMemory(t, mem, o, i)) == Contents(t, mem)
  {
    hide Layout, Chain, Contents, SlidTable, SameInner, AllSameBytes;
    ChainNext(t, o, i);
    OrderInside(t, o, i + 1, |mem|);
    SlideKeepsChain(t, o, i, |mem|);
    SlideKeepsInner(t, o, i);
    SlideKeepsAllBytes(t, mem, o, i);
    SameContents(t, mem, SlidTable(t, o, i), SlidMemory(t, mem, o, i));
  }

  lemma InnerInside(t: seq<Block>)
    ensures forall j: nat :: Inner(t, j) ==> j < |t|
  {}

  // A slot given back leaves all other blocks as they are.
  lemma FreedContents(t: seq<Block>, mem: seq<Byte>, slot: nat)
    requires Layout(t, |mem|) && 0 < slot < |t| - 1
    ensures var u := t[slot := t[slot].(used := false)];
      Layout(u, |mem|) && Contents(u, mem) == Contents(t, mem) - {slot}
  {
    var u := t[slot := t[slot].(used := false)];
    forall i: nat ensures Inner(u, i) <==> i != slot && Inner(t, i) {}
  }

  // The place for a new block is apart from every block in use.
  lemma GapIsFree(t: seq<Block>, o: seq<nat>, k: nat, size: nat, j: nat)
    requires Chain(t, o) && k + 1 < |o| && size <= Gap(t, o, k) && Inner(t, j)
    ensures Apart(t[j], Block(true, End(t[o[k]]), size))
  {
    var m := PlaceInOrder(t, o, j);
    if m < k { ChainOrder(t, o, m, k); }
    if m > k + 1 { ChainOrder(t, o, k + 1, m); }
  }

  lemma GapInside(t: seq<Block>, o: seq<nat>, k: nat, memorySize: nat)
    requires Layout(t, memorySize) && Chain(t, o) && k + 1 < |o|
    ensures t[o[k + 1]].ptr <= memorySize
  {
    hide Layout;
    EndMarks(t, memorySize);
    if k + 1 < |o| - 1 { ChainOrder(t, o, k + 1, |o| - 1); }
  }

  // One more block, apart from the others, keeps the layout.
  lemma OneMoreBlock(t: seq<Block>, slot: nat, b: Block, memorySize: nat)
    requires Layout(t, memorySize) && 0 < slot < |t| - 1 && b.used && 0 < b.size && End(b) <= memorySize
    requires forall j: nat :: Inner(t, j) ==> Apart(t[j], b)
    ensures Layout(t[slot := b], memorySize)
  {
    var u := t[slot := b];
    forall j: nat | j != slot ensures Inner(u, j) <==> Inner(t, j) {}
  }

  lemma PlaceKeepsLayout(t: seq<Block>, o: seq<nat>, k: nat, slot: nat, size: nat, memorySize: nat)
    requires Layout(t, memorySize) && Chain(t, o) && k + 1 < |o| && 0 < size <= Gap(t, o, k)
    requires 0 < slot < |t| - 1
    ensures Layout(t[slot := Block(true, End(t[o[k]]), size)], memorySize)
  {
    hide Layout, Chain, Inner, Apart;
    ChainIndices(t, o);
    GapInside(t, o, k, memorySize);
    InnerInside(t);
    forall j: nat | Inner(t, j) ensures Apart(t[j], Block(true, End(t[o[k]]), size)) {
      GapIsFree(t, o, k, size, j);
    }
    OneMoreBlock(t, slot, Block(true, End(t[o[k]]), size), memorySize);
  }

  /** A block put into a gap that holds it is one more block of the layout, and changes no other. */
  lemma PlaceInGap(t: seq<Block>, mem: seq<Byte>, o: seq<nat>, k: nat, slot: nat, size: nat)
    requires Layout(t, |mem|) && Chain(t, o) && k + 1 < |o| && 0 < size <= Gap(t, o, k)
    requires 0 < slot < |t| - 1 && !t[slot].used
    ensures var u := t[slot := Block(true, End(t[o[k]]), size)];
      Layout(u, |mem|) && Granted(Contents(t, mem), Contents(u, mem), slot, size)
  {
    hide Layout, Chain, Granted, Contents;
    ChainIndices(t, o);
    PlaceKeepsLayout(t, o, k, slot, size, |mem|);
    PlaceGrants(t, mem, slot, Block(true, End(t[o[k]]), size));
  }

  lemma PlaceGrants(t: seq<Block>, mem: seq<Byte>, slot: nat, b: Block)
    requires Layout(t, |mem|) && 0 < slot < |t| - 1 && !t[slot].used && b.used && Layout(t[slot := b], |mem|)
    ensures Granted(Contents(t, mem), Contents(t[slot := b], mem), slot, b.size)
  {
    var u := t[slot := b];
    assert Inner(u, slot);
    forall j: nat | j != slot ensures Inner(u, j) <==> Inner(t, j) {}
  }

  // What a slot adds to the bytes held.
  lemma HeldSize(t: seq<Block>, mem: seq<Byte>, i: nat)
    requires Layout(t, |mem|) && i < |t|
    ensures i in Contents(t, mem) ==> t[i].used && |Contents(t, mem)[i]| == t[i].size
    ensures i !in Contents(t, mem) && t[i].used ==> t[i].size == 0
  {
    assert t[i].used ==> i == 0 || i == |t| - 1 || Inner(t, i);
  }

  lemma {:induction false} SumIsTotal(t: seq<Block>, mem: seq<Byte>, n: nat)
    requires Layout(t, |mem|) && n <= |t|
    ensures SumSizes(t, UsedIndices(t, n)) == Total(Contents(t, mem), n)
  {
    hide Layout, Contents, SumSizes;
    if n > 0 {
      SumIsTotal(t, mem, n - 1);
      HeldSize(t, mem, n - 1);
      SumSnoc(t, UsedIndices(t, n - 1), n - 1);
    } else {
      SumNone(t);
    }
  }

  lemma SumNone(t: seq<Block>)
    ensures Indices(t, []) && SumSizes(t, []) == 0
  {}

  // Without any byte in use no slot is in use either.
  lemma {:induction false} NothingHeld(t: seq<Block>, mem: seq<Byte>, n: nat)
    requires Layout(t, |mem|) && n <= |t| && Total(Contents(t, mem), n) == 0
    ensures forall i: nat :: i < n ==> !Inner(t, i)
  {
    hide Layout, Contents, Inner;
    if n > 0 {
      NothingHeld(t, mem, n - 1);
      InnerHolds(t, mem, n - 1);
    }
  }

  lemma InnerHolds(t: seq<Block>, mem: seq<Byte>, i: nat)
    requires Layout(t, |mem|)
    ensures Inner(t, i) ==> i in Contents(t, mem) && |Contents(t, mem)[i]| > 0
  {}

  // A table whose blocks up to position i of the order are packed, and which is otherwise unchanged.
  ghost predicate SlidUpTo(t0: seq<Block>, t: seq<Block>, o: seq<nat>, i: nat) {
    && |t| == |t0| && Chain(t0, o) && i < |o|
    && (forall k :: 0 <= k < |t| ==> t[k].used == t0[k].used && t[k].size == t0[k].size)
    && (forall k :: 0 <= k <= i ==> t[o[k]].ptr == SumSizes(t0, o[..k]))
    && (forall k :: i < k < |o| ==> t[o[k]] == t0[o[k]])
  }

  lemma SlidNext(t0: seq<Block>, t: seq<Block>, o: seq<nat>, i: nat)
    requires SlidUpTo(t0, t, o, i) && i + 2 < |o| && t0[0] == Block(true, 0, 0)
    ensures SlidUpTo(t0, SlidTable(t, o, i), o, i + 1)
  {
    hide SumSizes;
    SumPrefix(t0, o, i);
  }

  // What packing up to position j says about two neighbours there.
  lemma SlidAt(t0: seq<Block>, t: seq<Block>, o: seq<nat>, j: nat)
    requires SlidUpTo(t0, t, o, j) && j + 1 < |o| && t0[0] == Block(true, 0, 0)
    ensures Indices(t0, o) && Indices(t, o)
    ensures t[o[j]].ptr == SumSizes(t0, o[..j]) && t[o[j]].size == t0[o[j]].size && t[o[j + 1]].ptr == t0[o[j + 1]].ptr
  {}

  lemma SlidGap(t0: seq<Block>, t: seq<Block>, o: seq<nat>, j: nat)
    requires SlidUpTo(t0, t, o, j) && j + 1 < |o| && t0[0] == Block(true, 0, 0)
    ensures Indices(t0, o) && Indices(t, o) && Gap(t, o, j) == FreeBelow(t0, o, j + 1)
  {
    hide SlidUpTo, SumSizes;
    SlidAt(t0, t, o, j);
    SumPrefix(t0, o, j);
  }

  // A block with another one ending right where it starts.
  ghost predicate Abuts(t: seq<Block>, i: nat) {
    i < |t| && exists k :: 0 <= k < |t| && k != i && t[k].used && End(t[k]) == t[i].ptr
  }

  // Block i moved down by less than the bytes asked for: below the new block without a byte
  // free in front of it, above the new block not at all.
  ghost predicate Shifted(t0: seq<Block>, t1: seq<Block>, slot: nat, size: nat, i: nat) {
    && i < |t0| == |t1| && slot < |t1| && i != slot
    && t1[i].used && t1[i].size == t0[i].size && t1[i].ptr <= t0[i].ptr < t1[i].ptr + size
    && if t1[i].ptr < t1[slot].ptr then Abuts(t1, i) else t1[i] == t0[i]
  }

  /**
   * No more blocks moved than necessary, and none but the new block is new: it ends the blocks
   * pushed together at the start of the arena.
   */
  ghost predicate PushedDown(t0: seq<Block>, t1: seq<Block>, slot: nat, size: nat) {
    && |t1| == |t0| && Inner(t1, slot) && t1[slot].size == size && Abuts(t1, slot)
    && (forall i: nat :: Inner(t0, i) ==> Shifted(t0, t1, slot, size, i))
  }

  lemma {:induction false} FreeBelowGrows(t: seq<Block>, o: seq<nat>, k: nat, j: nat)
    requires Chain(t, o) && k <= j < |o| && t[0].ptr == 0
    ensures Indices(t, o) && FreeBelow(t, o, 0) == 0 && FreeBelow(t, o, k) <= FreeBelow(t, o, j)
    decreases j
  {
    hide SumSizes;
    if k < j {
      FreeBelowGrows(t, o, k, j - 1);
      FreeBelowNext(t, o, j - 1);
    } else {
      NoneBelow(t, o);
    }
  }

  lemma NoneBelow(t: seq<Block>, o: seq<nat>)
    requires Chain(t, o) && t[0].ptr == 0
    ensures Indices(t, o) && FreeBelow(t, o, 0) == 0
  {
    assert o[..0] == [];
  }

  // Where a block pushed down lies, and which one it lies behind.
  lemma SlidShift(t0: seq<Block>, t: seq<Block>, o: seq<nat>, j: nat, size: nat, k: nat)
    requires SlidUpTo(t0, t, o, j) && t0[0].ptr == 0 && Indices(t0, o) && FreeBelow(t0, o, j) < size
    requires 0 < k <= j
    ensures Indices(t, o) && t[o[k - 1]].used && o[k - 1] != o[k] && End(t[o[k - 1]]) == t[o[k]].ptr
    ensures t[o[k]].size == t0[o[k]].size && t[o[k]].ptr <= t0[o[k]].ptr < t[o[k]].ptr + size
  {
    hide SumSizes;
    FreeBelowGrows(t0, o, k, j);
    FreeBelowGrows(t0, o, 0, k);
    SumPrefix(t0, o, k - 1);
  }

  // One block of the arena after the new one has been put behind those pushed together.
  lemma ShiftedThere(t0: seq<Block>, t: seq<Block>, o: seq<nat>, j: nat, slot: nat, size: nat, k: nat)
    requires SlidUpTo(t0, t, o, j) && Chain(t, o) && t0[0].ptr == 0 && Indices(t0, o) && FreeBelow(t0, o, j) < size
    requires j + 1 < |o| && 0 < k < |o| && slot < |t| && !t[slot].used && 0 < size <= Gap(t, o, j)
    requires 0 < t0[o[k]].size
    ensures Shifted(t0, t[slot := Block(true, End(t[o[j]]), size)], slot, size, o[k])
  {
    hide SumSizes;
    var u := t[slot := Block(true, End(t[o[j]]), size)];
    assert t[o[k]].used;
    if k <= j {
      SlidShift(t0, t, o, j, size, k);
      if k < j { ChainOrder(t, o, k, j); }
      assert u[o[k - 1]] == t[o[k - 1]] && End(u[o[k - 1]]) == u[o[k]].ptr;
    } else if j + 1 < k {
      ChainOrder(t, o, j + 1, k);
    }
  }

  lemma SlidIsPushedDown(t0: seq<Block>, t: seq<Block>, o: seq<nat>, j: nat, slot: nat, size: nat, memorySize: nat)
    requires Layout(t0, memorySize) && SlidUpTo(t0, t, o, j) && Chain(t, o)
    requires Indices(t0, o) && FreeBelow(t0, o, j) < size
    requires j + 1 < |o| && 0 < slot < |t| - 1 && !t[slot].used && 0 < size <= Gap(t, o, j)
    ensures PushedDown(t0, t[slot := Block(true, End(t[o[j]]), size)], slot, size)
  {
    hide SumSizes, Shifted, FreeBelow;
    var u := t[slot := Block(true, End(t[o[j]]), size)];
    assert t[o[j]].used && u[o[j]] == t[o[j]] && End(u[o[j]]) == u[slot].ptr;
    forall i: nat | Inner(t0, i) ensures Shifted(t0, u, slot, size, i) {
      var k := PlaceInOrder(t0, o, i);
      ShiftedThere(t0, t, o, j, slot, size, k);
    }
  }

  lemma OnlyEnds(t: seq<Block>, o: seq<nat>)
    requires Chain(t, o) && |t| >= 3 && forall i: nat :: !Inner(t, i)
    ensures |o| == 2
  {
    assert o[1] != o[0];
    assert o[1] == |t| - 1 by {
      assert !Inner(t, o[1]);
    }
  }

  lemma ChainIndices(t: seq<Block>, o: seq<nat>)
    requires Chain(t, o)
    ensures Indices(t, o) && |o| >= 2 && o[0] == 0
  {}

  lemma HeldIsInner(t: seq<Block>, mem: seq<Byte>, i: nat)
    requires Layout(t, |mem|)
    ensures i in Contents(t, mem) <==> Inner(t, i)
  {}

  /** Nothing moved: one entry is new, and it starts at the tightest gap. */
  ghost predicate Undisturbed(t0: seq<Block>, m0: seq<Byte>, t1: seq<Block>, m1: seq<Byte>, slot: nat, size: nat) {
    && |t1| == |t0| && slot < |t0|
    && m1 == m0
    && t1 == t0[slot := t1[slot]]
    && BestFit(t0, t1[slot].ptr, size)
  }

  // One entry of the table replaced.
  ghost predicate Placed(t0: seq<Block>, t1: seq<Block>, slot: nat, b: Block) {
    slot < |t0| && t1 == t0[slot := b]
  }

  lemma FirstPlacement(t: seq<Block>, mem: seq<Byte>, o: seq<nat>, size: nat)
    requires Layout(t, |mem|) && Chain(t, o) && 0 < size <= |mem|
    requires Total(Contents(t, mem), |t|) == 0
    ensures FirstFree(Contents(t, mem), 1, |t|) == Some(1) && t[0].ptr == 0
    ensures var u := t[1 := Block(true, 0, size)];
      Layout(u, |mem|) && Granted(Contents(t, mem), Contents(u, mem), 1, size)
    ensures Undisturbed(t, mem, t[1 := Block(true, 0, size)], mem, 1, size) && SomeFit(t, size)
  {
    hide Layout, Chain, Contents, Granted, Total, FirstFree, Tightest, Inner, SomeFit, BestFit, Undisturbed;
    EndMarks(t, |mem|);
    NothingHeld(t, mem, |t|);
    InnerInside(t);
    OnlyEnds(t, o);
    OneGap(t, o, |mem|);
    OneGapIsTightest(t, o, size);
    SlotOneFree(t, mem);
    PlaceInGap(t, mem, o, 0, 1, size);
    TightestFits(t, o, size, 0);
    EntryAtBestFit(t, mem, 1, Block(true, 0, size), size);
  }

  lemma EntryAtBestFit(t: seq<Block>, mem: seq<Byte>, slot: nat, b: Block, size: nat)
    requires slot < |t| && BestFit(t, b.ptr, size)
    ensures Undisturbed(t, mem, t[slot := b], mem, slot, size) && SomeFit(t, size)
  {}

  // Between the two end marks alone lies the whole arena.
  lemma OneGap(t: seq<Block>, o: seq<nat>, memorySize: nat)
    requires Layout(t, memorySize) && Chain(t, o) && |o| == 2
    ensures Indices(t, o) && o[0] == 0 && Gap(t, o, 0) == memorySize
  {
    hide Layout;
    EndMarks(t, memorySize);
  }

  lemma OneGapIsTightest(t: seq<Block>, o: seq<nat>, size: nat)
    requires Indices(t, o) && |o| == 2 && size <= Gap(t, o, 0)
    ensures Tightest(t, o, |o| - 1, size, 0)
  {}

  lemma SlotOneFree(t: seq<Block>, mem: seq<Byte>)
    requires Layout(t, |mem|) && forall i: nat :: !Inner(t, i)
    ensures !t[1].used && FirstFree(Contents(t, mem), 1, |t|) == Some(1)
  {
    assert !Inner(t, 1);
  }

  // The address order the sort finds, and the free bytes it accounts for.
  lemma Accounted(t: seq<Block>, mem: seq<Byte>, u: seq<nat>)
    requires Layout(t, |mem|) && u == UsedIndices(t, |t|)
    ensures |u| >= 2 && Indices(t, u) && Chain(t, Bubbled(t, u, |u| - 1))
    ensures SumSizes(t, u) == Total(Contents(t, mem), |t|)
    ensures FreeBelow(t, Bubbled(t, u, |u| - 1), |Bubbled(t, u, |u| - 1)| - 1) == |mem| - SumSizes(t, u)
  {
    SumIsTotal(t, mem, |t|);
    BubbledIsChain(t, u, |mem|);
    FreeInAll(t, Bubbled(t, u, |u| - 1), |mem|);
  }

  lemma EndMarks(t: seq<Block>, memorySize: nat)
    requires Layout(t, memorySize)
    ensures |t| >= 3 && t[0] == Block(true, 0, 0) && t[|t| - 1] == Block(true, memorySize, 0)
  {}

  lemma BestIsLarge(t: seq<Block>, o: seq<nat>, size: nat, best: int)
    requires Indices(t, o) && |o| > 0 && Tightest(t, o, |o| - 1, size, best)
    ensures best >= 0 ==> best + 1 < |o| && size <= Gap(t, o, best)
  {}

  lemma SlidNothing(t: seq<Block>, o: seq<nat>)
    requires Chain(t, o) && |t| > 0 && t[0].ptr == 0
    ensures SlidUpTo(t, t, o, 0)
  {}
}
