// The memory pool of the serial protocol: best fit in a fixed arena, with the blocks pushed
// together in place when no single gap is large enough.
module Memory {
  import opened Options
  import opened Checksum
  import opened PoolSpec
  import opened PoolLayout

  // Copying bytes into an arena, as if they had been set aside first.
  method Copy(mem: array<Byte>, at: nat, data: seq<Byte>)
    requires at + |data| <= mem.Length
    modifies mem
    ensures mem[..] == Overwrite(old(mem[..]), at, data)
  {
    forall i | 0 <= i < |data| { mem[at + i] := data[i]; }
  }

  // The indices of the blocks in use, and the bytes they hold.
  method CollectUsed(t: seq<Block>, order: array<nat>) returns (num: nat, usedSize: nat)
    requires order.Length == |t|
    modifies order
    ensures num <= order.Length && order[..num] == UsedIndices(t, |t|)
    ensures usedSize == SumSizes(t, UsedIndices(t, |t|))
  {
    num, usedSize := 0, 0;
    for i := 0 to |t|
      invariant num <= i && order[..num] == UsedIndices(t, i)
      invariant usedSize == SumSizes(t, UsedIndices(t, i))
    {
      if t[i].used {
        ghost var o := order[..num];
        SumSnoc(t, o, i);
        usedSize := usedSize + t[i].size;
        order[num] := i;
        num := num + 1;
        assert order[..num] == o + [i];
      }
    }
  }

  // One pass of the sort over the first entries of an index array.
  method BubbleOnce(t: seq<Block>, order: array<nat>, num: nat, last: nat)
    requires last < num <= order.Length && Indices(t, order[..num])
    modifies order
    ensures Indices(t, order[..num]) && order[..num] == BubblePass(t, old(order[..num]), 0, last)
  {
    ghost var p := order[..num];
    var j := 0;
    while j < last
      invariant 0 <= j <= last && Indices(t, order[..num])
      invariant BubblePass(t, order[..num], j, last) == BubblePass(t, p, 0, last)
    {
      ghost var q := order[..num];
      BubbleStep(t, q, j, last);
      hide BubblePass, Indices;
      assert order[j] == q[j] && order[j + 1] == q[j + 1];
      if t[order[j]].ptr > t[order[j + 1]].ptr {
        order[j], order[j + 1] := order[j + 1], order[j];
        assert order[..num] == Swapped(q, j);
      }
      j := j + 1;
    }
    BubbleEnd(t, order[..num], last);
  }

  // A bubble sort of the indices by block address.
  method SortByPointer(t: seq<Block>, order: array<nat>, num: nat)
    requires 0 < num <= order.Length && Indices(t, order[..num])
    modifies order
    ensures order[..num] == Bubbled(t, old(order[..num]), num - 1)
  {
    hide BubblePass, Indices;
    ghost var o := order[..num];
    var i := 0;
    while i < num - 1
      invariant 0 <= i <= num - 1
      invariant Indices(t, order[..num])
      invariant Bubbled(t, order[..num], num - 1 - i) == Bubbled(t, o, num - 1)
    {
      BubbleOnce(t, order, num, num - i - 1);
      i := i + 1;
    }
  }

  // The block in front of the tightest gap that is large enough, if any gap is; and the first
  // block up to which the gaps together are large enough.
  method FindGap(t: seq<Block>, o: seq<nat>, size: nat) returns (best: int, j: nat)
    requires Indices(t, o) && |o| >= 2 && t[o[0]].ptr == 0
    ensures -1 <= best < |o| - 1 && Tightest(t, o, |o| - 1, size, best)
    ensures size <= FreeBelow(t, o, |o| - 1) && size > 0 ==>
      j + 1 < |o| && FreeBelow(t, o, j) < size <= FreeBelow(t, o, j + 1)
  {
    assert o[..0] == [] && FreeBelow(t, o, 0) == 0;
    hide Tightest, SumSizes;
    StartOfSearch(t, o, size);
    best, j := -1, 0;
    var bestGap := 0;
    var accumulated: int := 0;
    var found := false;
    var i := 0;
    while i < |o| - 1
      invariant 0 <= i <= |o| - 1
      invariant -1 <= best < i && Tightest(t, o, i, size, best) && (best >= 0 ==> bestGap == Gap(t, o, best))
      invariant accumulated == FreeBelow(t, o, i)
      invariant found && size > 0 ==> j < i && FreeBelow(t, o, j) < size <= FreeBelow(t, o, j + 1)
      invariant !found && size > 0 ==> accumulated < size
    {
      ghost var was := best;
      var gap := Gap(t, o, i);
      if gap >= size {
        if best < 0 || bestGap > gap {
          best, bestGap := i, gap;
        }
      }
      TightestNext(t, o, i, size, was, best);
      FreeBelowNext(t, o, i);
      accumulated := accumulated + gap;
      if accumulated >= size && !found {
        j, found := i, true;
      }
      i := i + 1;
    }
  }

  class MemoryPool {
    const limits: Limits
    const table: array<Block>
    const memory: array<Byte>

    ghost predicate Valid()
      reads this, table, memory
    {
      && table.Length == limits.slots && memory.Length == limits.memorySize
      && table as object != memory
      && Layout(table[..], memory.Length)
    }

    ghost function Live(): Live
      requires Valid()
      reads this, table, memory
    {
      Contents(table[..], memory[..])
    }

    constructor (maxBlockSize: nat, memorySize: nat, slots: nat)
      requires 3 <= slots <= 255
      ensures Valid() && Live() == map[] && limits == Limits(maxBlockSize, memorySize, slots)
      ensures fresh(table) && fresh(memory)
    {
      limits := Limits(maxBlockSize, memorySize, slots);
      table := new Block[slots](_ => Block(false, 0, 0));
      memory := new Byte[memorySize](_ => 0);
      new;
      table[0] := Block(true, 0, 0);
      for i := 1 to slots - 1
        invariant table[0] == Block(true, 0, 0) && forall k :: 1 <= k < i ==> !table[k].used
      {
        table[i] := table[i].(used := false);
      }
      table[slots - 1] := Block(true, memorySize, 0);
    }

    // Giving a block back; the two end marks, and no block at all, are left alone.
    method FreeMemory(slot: Option<nat>)
      requires Valid() && (slot.Some? ==> slot.value < limits.slots)
      modifies table
      ensures Valid()
      ensures Live() == if slot.None? then old(Live()) else old(Live()) - {slot.value}
    {
      if slot.None? {
        return;
      }
      if slot.value == 0 || slot.value == limits.slots - 1 {
        return;
      }
      hide Layout, Contents;
      ghost var t := table[..];
      FreedContents(t, memory[..], slot.value);
      table[slot.value] := table[slot.value].(used := false);
      assert table[..] == t[slot.value := t[slot.value].(used := false)];
    }

    // Reading a block in use.
    method Load(slot: nat) returns (data: seq<Byte>)
      requires Valid() && slot in Live()
      ensures data == Live()[slot]
    {
      data := memory[table[slot].ptr..table[slot].ptr + table[slot].size];
    }

    // Writing into a block in use.
    method Store(slot: nat, offset: nat, data: seq<Byte>)
      requires Valid() && slot in Live() && offset + |data| <= |Live()[slot]|
      modifies memory
      ensures Valid()
      ensures Live() == old(Live())[slot := Overwrite(old(Live())[slot], offset, data)]
    {
      ghost var t, m := table[..], memory[..];
      assert Inner(t, slot) && Live()[slot] == m[t[slot].ptr..End(t[slot])];
      Copy(memory, table[slot].ptr + offset, data);
      assert table[..] == t;
      assert memory[..] == Overwrite(m, t[slot].ptr + offset, data);
      StoreContents(t, m, slot, offset, data);
    }

    // One block pushed down to the end of the one before it.
    method Slide(o: seq<nat>, i: nat)
      requires Valid() && Chain(table[..], o) && i + 2 < |o|
      modifies table, memory
      ensures Valid() && Chain(table[..], o) && Live() == old(Live())
      ensures table[..] == SlidTable(old(table[..]), o, i)
    {
      hide Chain, Layout, Contents;
      ghost var t, m := table[..], memory[..];
      ChainIndices(t, o);
      SlideKeepsContents(t, m, o, i);
      var a, b := table[o[i]], table[o[i + 1]];
      if b.ptr > a.ptr + a.size {
        MoveBlock(a.ptr + a.size, b.ptr, b.size, o[i + 1], b.(ptr := a.ptr + a.size));
      } else {
        assert SlidMemory(t, m, o, i) == m && SlidTable(t, o, i) == t;
      }
      assert memory[..] == SlidMemory(t, m, o, i);
    }

    // The blocks up to one position of the address order pushed together at the start of the arena.
    method Compact(o: seq<nat>, j: nat)
      requires Valid() && Chain(table[..], o) && j + 1 < |o|
      modifies table, memory
      ensures Valid() && Chain(table[..], o) && Live() == old(Live())
      ensures SlidUpTo(old(table[..]), table[..], o, j)
    {
      hide SlidUpTo, Chain, Layout, Contents;
      ghost var t0 := table[..];
      EndMarks(t0, limits.memorySize);
      SlidNothing(t0, o);
      var i := 0;
      while i < j
        invariant 0 <= i <= j
        invariant Valid() && Chain(table[..], o) && Live() == old(Live())
        invariant SlidUpTo(t0, table[..], o, i)
      {
        SlidNext(t0, table[..], o, i);
        Slide(o, i);
        i := i + 1;
      }
    }

    // A new value for one entry of the table.
    method SetEntry(i: nat, b: Block)
      requires Valid() && i < limits.slots && Layout(table[..][i := b], memory.Length)
      modifies table
      ensures Valid() && Live() == Contents(old(table[..])[i := b], old(memory[..]))
      ensures table[..] == old(table[..])[i := b] && memory[..] == old(memory[..])
    {
      hide Layout, Contents;
      ghost var t, m := table[..], memory[..];
      table[i] := b;
      assert table[..] == t[i := b] && memory[..] == m;
    }

    // Bytes moved inside the arena, and a new value for one entry of the table.
    method MoveBlock(at: nat, from: nat, size: nat, i: nat, b: Block)
      requires Valid() && i < limits.slots && at + size <= memory.Length && from + size <= memory.Length
      requires Layout(table[..][i := b], memory.Length)
      modifies table, memory
      ensures Valid() && table[..] == old(table[..])[i := b]
      ensures memory[..] == Overwrite(old(memory[..]), at, old(memory[..])[from..from + size])
    {
      hide Layout, Overwrite;
      ghost var t, m := table[..], memory[..];
      Copy(memory, at, memory[from..from + size]);
      table[i] := b;
      assert table[..] == t[i := b];
    }

    // The lowest slot not in use.
    method FindFree() returns (slot: Option<nat>)
      requires Valid()
      ensures slot == FirstFree(Live(), 1, limits.slots)
      ensures slot.Some? ==> !table[slot.value].used
    {
      var i := 1;
      while i < limits.slots - 1
        invariant 1 <= i <= limits.slots - 1
        invariant FirstFree(Live(), i, limits.slots) == FirstFree(Live(), 1, limits.slots)
      {
        HeldIsInner(table[..], memory[..], i);
        if !table[i].used {
          return Some(i);
        }
        i := i + 1;
      }
      return None;
    }

    // A block put behind block o[k] in the lowest free slot, if a slot is free.
    method Place(o: seq<nat>, k: nat, size: nat) returns (slot: Option<nat>)
      requires Valid() && Chain(table[..], o) && k + 1 < |o| && 0 < size <= Gap(table[..], o, k)
      modifies table
      ensures Valid() && slot == FirstFree(old(Live()), 1, limits.slots)
      ensures slot.None? ==> Live() == old(Live())
      ensures slot.Some? ==> !old(table[..])[slot.value].used
      ensures slot.Some? ==> Placed(old(table[..]), table[..], slot.value, Block(true, End(old(table[..])[o[k]]), size))
      ensures slot.Some? ==> Granted(old(Live()), Live(), slot.value, size)
    {
      hide Chain, Layout, Contents, Granted;
      ghost var t, m := table[..], memory[..];
      ChainIndices(t, o);
      slot := FindFree();
      if slot.Some? {
        PlaceInGap(t, m, o, k, slot.value, size);
        SetEntry(slot.value, Block(true, table[o[k]].ptr + table[o[k]].size, size));
      }
    }

    // The very first block goes to the start of the arena.
    method PlaceFirst(ghost o: seq<nat>, size: nat) returns (slot: Option<nat>)
      requires Valid() && Chain(table[..], o) && 0 < size <= limits.memorySize
      requires Total(Live(), limits.slots) == 0
      modifies table
      ensures Valid() && slot == FirstFree(old(Live()), 1, limits.slots) == Some(1)
      ensures Granted(old(Live()), Live(), 1, size)
      ensures Undisturbed(old(table[..]), old(memory[..]), table[..], memory[..], 1, size)
      ensures SomeFit(old(table[..]), size)
    {
      hide Chain, Layout, Contents, Undisturbed, Granted, Total, FirstFree;
      FirstPlacement(table[..], memory[..], o, size);
      SetEntry(1, Block(true, table[0].ptr, size));
      return Some(1);
    }

    /**
     * A request is decided by sizes and slots alone, the bytes of every block in use survive it
     * whether or not blocks had to move, and no block moves when one gap is large enough: the
     * new block then starts at the tightest such gap. When none is, only as many blocks are
     * pushed together as it takes, and the new block lies behind them.
     */
    method AllocMemory(size: nat) returns (slot: Option<nat>)
      requires Valid() && size > 0
      modifies table, memory
      ensures Valid()
      ensures slot == Chosen(old(Live()), size, limits)
      ensures slot.None? ==> Live() == old(Live())
      ensures slot.Some? ==> Granted(old(Live()), Live(), slot.value, size)
      ensures slot.Some? && SomeFit(old(table[..]), size) ==>
        Undisturbed(old(table[..]), old(memory[..]), table[..], memory[..], slot.value, size)
      ensures slot.Some? && !SomeFit(old(table[..]), size) ==>
        PushedDown(old(table[..]), table[..], slot.value, size)
    {
      if size > limits.maxBlockSize || size > limits.memorySize {
        return None;
      }
      hide Layout, Contents, SomeFit, PushedDown, UsedIndices, SumSizes, Granted, Undisturbed, Total, FirstFree;
      SumIsTotal(table[..], memory[..], table.Length);
      var order := new nat[limits.slots];
      var num, usedSize := CollectUsed(table[..], order);
      if limits.memorySize < usedSize + size {
        return None;
      }
      slot := PlaceSorted(order, num, usedSize, size);
    }

    // The very first block, or a place found in address order.
    method PlaceSorted(order: array<nat>, num: nat, usedSize: nat, size: nat) returns (slot: Option<nat>)
      requires Valid() && size > 0 && usedSize + size <= limits.memorySize
      requires num <= order.Length && order[..num] == UsedIndices(table[..], limits.slots)
      requires usedSize == SumSizes(table[..], order[..num])
      requires order as object != table && order as object != memory
      modifies order, table, memory
      ensures Valid() && slot == FirstFree(old(Live()), 1, limits.slots)
      ensures slot.None? ==> Live() == old(Live())
      ensures slot.Some? ==> Granted(old(Live()), Live(), slot.value, size)
      ensures slot.Some? && SomeFit(old(table[..]), size) ==>
        Undisturbed(old(table[..]), old(memory[..]), table[..], memory[..], slot.value, size)
      ensures slot.Some? && !SomeFit(old(table[..]), size) ==>
        PushedDown(old(table[..]), table[..], slot.value, size)
    {
      hide Layout, Contents, SomeFit, PushedDown, Chain, FreeBelow, UsedIndices, Granted, Undisturbed, Bubbled;
      hide Total, FirstFree;
      Accounted(table[..], memory[..], order[..num]);
      if usedSize == 0 {
        slot := PlaceFirst(Bubbled(table[..], order[..num], num - 1), size);
      } else {
        ghost var t, m := table[..], memory[..];
        SortByPointer(table[..], order, num);
        assert table[..] == t && memory[..] == m;
        slot := Fit(order[..num], size);
      }
    }

    // A block put behind the blocks up to position j of the order, once they are pushed together.
    method PushTogether(o: seq<nat>, j: nat, size: nat) returns (slot: Option<nat>)
      requires Valid() && size > 0 && Chain(table[..], o) && j + 1 < |o|
      requires FreeBelow(table[..], o, j) < size <= FreeBelow(table[..], o, j + 1)
      modifies table, memory
      ensures Valid() && slot == FirstFree(old(Live()), 1, limits.slots)
      ensures slot.None? ==> Live() == old(Live())
      ensures slot.Some? ==> Granted(old(Live()), Live(), slot.value, size)
      ensures slot.Some? ==> PushedDown(old(table[..]), table[..], slot.value, size)
    {
      hide Layout, Contents, Chain, Granted, SlidUpTo, SumSizes, PushedDown;
      ghost var t := table[..];
      ChainIndices(t, o);
      EndMarks(t, limits.memorySize);
      Compact(o, j);
      SlidGap(t, table[..], o, j);
      ghost var u := table[..];
      slot := Place(o, j, size);
      if slot.Some? { SlidIsPushedDown(t, u, o, j, slot.value, size, limits.memorySize); }
    }

    // The search for a gap, and the packing of blocks when there is none.
    method Fit(o: seq<nat>, size: nat) returns (slot: Option<nat>)
      requires Valid() && size > 0 && Chain(table[..], o) && size <= FreeBelow(table[..], o, |o| - 1)
      modifies table, memory
      ensures Valid() && slot == FirstFree(old(Live()), 1, limits.slots)
      ensures slot.None? ==> Live() == old(Live())
      ensures slot.Some? ==> Granted(old(Live()), Live(), slot.value, size)
      ensures slot.Some? && SomeFit(old(table[..]), size) ==>
        Undisturbed(old(table[..]), old(memory[..]), table[..], memory[..], slot.value, size)
      ensures slot.Some? && !SomeFit(old(table[..]), size) ==>
        PushedDown(old(table[..]), table[..], slot.value, size)
    {
      hide Layout, Contents, BestFit, SomeFit, PushedDown, Hole, Chain, Granted, Tightest, FreeBelow;
      ghost var t := table[..];
      ChainIndices(t, o);
      EndMarks(t, limits.memorySize);
      var best, j := FindGap(table[..], o, size);
      TightestFits(t, o, size, best);
      BestIsLarge(t, o, size, best);
      if best < 0 {
        slot := PushTogether(o, j, size);
      } else {
        slot := Place(o, best, size);
      }
    }
  }
}
