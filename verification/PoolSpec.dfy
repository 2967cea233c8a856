// What a memory pool promises, with no addresses in sight: a map from table slots to bytes,
// and the one rule that decides every request.
module PoolSpec {
  import opened Options
  import opened Checksum

  type Live = map<nat, seq<Byte>>

  // Bytes held in the first n slots.
  function Total(live: Live, n: nat): nat {
    if n == 0 then 0 else Total(live, n - 1) + (if n - 1 in live then |live[n - 1]| else 0)
  }

  // The lowest slot from i up that is not in use; the last slot is never handed out.
  function FirstFree(live: Live, i: nat, slots: nat): (r: Option<nat>)
    ensures r.Some? ==> i <= r.value < slots - 1 && r.value !in live
    decreases slots - i
  {
    if i + 1 >= slots then None
    else if i !in live then Some(i)
    else FirstFree(live, i + 1, slots)
  }

  /** The slot found is the lowest free one, and none is found only when none is free. */
  lemma {:induction false} FirstFreeIsLowest(live: Live, i: nat, slots: nat, k: nat)
    requires i <= k < slots - 1 && k !in live
    ensures FirstFree(live, i, slots).Some? && FirstFree(live, i, slots).value <= k
    decreases slots - i
  {
    if i in live { FirstFreeIsLowest(live, i + 1, slots, k); }
  }

  datatype Limits = Limits(maxBlockSize: nat, memorySize: nat, slots: nat)

  /**
   * A request is granted, in the lowest free slot, exactly when it respects the block limit, the
   * bytes held and the bytes asked for fit the arena together, and a slot is free. How the free
   * bytes are scattered over the arena plays no part.
   */
  function Chosen(live: Live, size: nat, limits: Limits): (r: Option<nat>)
    ensures r.Some? ==> 0 < r.value < limits.slots - 1 && r.value !in live
  {
    if size <= limits.maxBlockSize && Total(live, limits.slots) + size <= limits.memorySize
    then FirstFree(live, 1, limits.slots) else None
  }

  lemma {:induction false} FirstFreeSkips(live: Live, i: nat, slots: nat, k: nat)
    requires i <= k && FirstFree(live, i, slots).Some? && k < FirstFree(live, i, slots).value
    ensures k in live
    decreases slots - i
  {
    if i < k { FirstFreeSkips(live, i + 1, slots, k); }
  }

  /**
   * A request is granted if and only if it is not larger than a block may be, fits the arena
   * beside the bytes held, and there is a slot left; it gets the lowest one.
   */
  lemma RequestGranted(live: Live, size: nat, limits: Limits)
    ensures Chosen(live, size, limits).Some? <==>
      && size <= limits.maxBlockSize && Total(live, limits.slots) + size <= limits.memorySize
      && exists k :: 0 < k < limits.slots - 1 && k !in live
    ensures Chosen(live, size, limits).Some? ==>
      var slot := Chosen(live, size, limits).value;
      0 < slot < limits.slots - 1 && slot !in live && forall k :: 0 < k < slot ==> k in live
  {
    var r := Chosen(live, size, limits);
    if r.Some? {
      forall k | 0 < k < r.value ensures k in live {
        FirstFreeSkips(live, 1, limits.slots, k);
      }
    }
    if k: nat :| 0 < k < limits.slots - 1 && k !in live {
      FirstFreeIsLowest(live, 1, limits.slots, k);
    }
  }

  lemma {:induction false} TotalUpdate(live: Live, slot: nat, data: seq<Byte>, n: nat)
    ensures Total(live[slot := data], n)
         == Total(live, n) + (if slot < n then |data| - (if slot in live then |live[slot]| else 0) else 0)
  {
    if n > 0 { TotalUpdate(live, slot, data, n - 1); }
  }

  lemma {:induction false} TotalRemove(live: Live, slot: nat, n: nat)
    ensures Total(live - {slot}, n) == Total(live, n) - (if slot < n && slot in live then |live[slot]| else 0)
  {
    if n > 0 { TotalRemove(live, slot, n - 1); }
  }

  // After a grant every block still holds its bytes, and one more slot holds as many as asked for.
  ghost predicate Granted(before: Live, after: Live, slot: nat, size: nat) {
    slot in after && |after[slot]| == size && after == before[slot := after[slot]]
  }
}
