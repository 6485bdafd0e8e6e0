// The capacity arithmetic of the growable RAM-disk stream
// (src/hdd/ramdisk/ramdisk.c): the size ceiling, the integer golden-ratio
// growth step, the capacity the growth loop settles on, and what a grow call
// records when the allocator refuses part of it.
//
// `size_t` is taken to be 64 bits wide, so `n * 207` never wraps for the
// capacities that occur here (all below 2^31).

module RamDiskGrowth {
  import opened Common

  /** `MAX_STREAM_SIZE`: 2 GiB - 1 byte on every platform. */
  const MaxStreamSize: nat := 0x7FFF_FFFF

  /** Capacity of a freshly initialised stream (4 KiB). */
  const InitialCapacity: nat := 4096

  /** `golden_growth_ceil`: `n * 207 >> 6`, then halved rounding up, that is
      `ceil(floor(207 * n / 64) / 2)`, about `n * 1.617`. The shifts and the
      `& 1` are written as division and remainder on naturals. */
  function GoldenGrowthCeil(n: nat): (r: nat)
    ensures 0 < n ==> n < r
    ensures n * 207 / 64 <= 2 * r <= n * 207 / 64 + 1
  {
    var scaled := n * 207 / 64;
    scaled / 2 + scaled % 2
  }

  /** A larger capacity never grows to a smaller one. */
  lemma GoldenGrowthMonotone(a: nat, b: nat)
    requires a <= b
    ensures GoldenGrowthCeil(a) <= GoldenGrowthCeil(b)
  {
    assert a * 207 <= b * 207;
    assert a * 207 / 64 <= b * 207 / 64;
  }

  /** The value the `while (required > newsize)` loop of
      `ramdisk_stream_grow` leaves in `newsize`: the first term of
      `size, g(size), g(g(size)), ...` that reaches `target`. */
  function GrowCurve(size: nat, target: nat): nat
    requires 0 < size
    decreases target - size
  {
    if target <= size then size else GrowCurve(GoldenGrowthCeil(size), target)
  }

  /** The loop always reaches its target, never shrinks the capacity, and
      overshoots by at most one growth step: the result is no larger than the
      step taken from `target - 1`. */
  lemma {:induction false} GrowCurveBounds(size: nat, target: nat)
    requires 0 < size
    ensures target <= GrowCurve(size, target)
    ensures size <= GrowCurve(size, target)
    ensures size < target ==> GrowCurve(size, target) <= GoldenGrowthCeil(target - 1)
    decreases target - size
  {
    if size < target {
      var next := GoldenGrowthCeil(size);
      GrowCurveBounds(next, target);
      if next < target {
        assert GrowCurve(size, target) == GrowCurve(next, target);
      } else {
        GoldenGrowthMonotone(size, target - 1);
      }
    }
  }

  /** `newsize` after the loop and the cap at `MAX_STREAM_SIZE`. */
  function GrowCapacity(size: nat, target: nat): nat
    requires 0 < size
  {
    Min(GrowCurve(size, target), MaxStreamSize)
  }

  /** Whether `ramdisk_stream_grow` can satisfy a stream whose capacity is
      `capacity` and whose cursor plus request is `target` (at most the
      ceiling): no allocation is needed, or `realloc` grants the grown size,
      or the fallback `realloc` of exactly `target` bytes is granted.
      `canAlloc(n)` is the allocator's answer to a request for `n` bytes. */
  predicate GrowSucceeds(capacity: nat, target: nat, canAlloc: nat -> bool)
    requires 0 < capacity
  {
    target <= capacity || canAlloc(GrowCapacity(capacity, target)) || canAlloc(target)
  }

  /** The capacity after a successful grow, recording the size that was really
      allocated (the grown size, or `target` after the fallback). */
  function CapacityAfterGrow(capacity: nat, target: nat, canAlloc: nat -> bool): nat
    requires 0 < capacity
  {
    if target <= capacity then capacity
    else if canAlloc(GrowCapacity(capacity, target)) then GrowCapacity(capacity, target)
    else target
  }

  /** A successful grow leaves room for the target, stays under the ceiling,
      never shrinks, and allocates only when the target does not fit. */
  lemma CapacityAfterGrowBounds(capacity: nat, target: nat, canAlloc: nat -> bool)
    requires 0 < capacity <= MaxStreamSize && target <= MaxStreamSize
    requires GrowSucceeds(capacity, target, canAlloc)
    ensures target <= CapacityAfterGrow(capacity, target, canAlloc) <= MaxStreamSize
    ensures capacity <= CapacityAfterGrow(capacity, target, canAlloc)
    ensures CapacityAfterGrow(capacity, target, canAlloc) == capacity <==> target <= capacity
  {
    GrowCurveBounds(capacity, target);
  }

  // The grow path as the source writes it: after the fallback
  // `realloc(stream->mem, required)` succeeds, `_size` is still set to the
  // larger `newsize`, so the recorded capacity exceeds the allocation.

  /** The size `ramdisk_stream_grow` records in `_size` and the size of the
      block it really holds afterwards; `None` when it fails with ENOMEM. */
  datatype GrowRecord = GrowRecord(recorded: nat, held: nat)

  /** `target` is the cursor plus the request, which the overflow test at
      the top of `ramdisk_stream_grow` has already held to the ceiling. The
      block held always has room for the target and never shrinks, and the
      size recorded is never below it; a failure happens only when growth
      was needed. */
  function GrowAsWritten(capacity: nat, target: nat, canAlloc: nat -> bool): (r: Option<GrowRecord>)
    requires 0 < capacity && target <= MaxStreamSize
    ensures r.Some? ==> capacity <= r.value.held && target <= r.value.held <= r.value.recorded
    ensures r.None? ==> capacity < target && !canAlloc(target)
  {
    if target <= capacity then Some(GrowRecord(capacity, capacity))
    else
      GrowCurveBounds(capacity, target);
      var newSize := GrowCapacity(capacity, target);
      if canAlloc(newSize) then Some(GrowRecord(newSize, newSize))
      else if newSize > target && canAlloc(target) then Some(GrowRecord(newSize, target))
      else None
  }

  /** The source allocates exactly what the corrected grow records, but it
      records more than it allocated precisely when the fallback was taken. */
  lemma GrowAsWrittenOverstates(capacity: nat, target: nat, canAlloc: nat -> bool)
    requires 0 < capacity && target <= MaxStreamSize
    ensures GrowAsWritten(capacity, target, canAlloc).Some? <==> GrowSucceeds(capacity, target, canAlloc)
    ensures GrowAsWritten(capacity, target, canAlloc).Some? ==>
      GrowAsWritten(capacity, target, canAlloc).value.held == CapacityAfterGrow(capacity, target, canAlloc)
    ensures GrowAsWritten(capacity, target, canAlloc).Some? ==>
      (GrowAsWritten(capacity, target, canAlloc).value.recorded != GrowAsWritten(capacity, target, canAlloc).value.held
       <==> capacity < target && !canAlloc(GrowCapacity(capacity, target)))
  {
    if capacity < target {
      GrowCurveBounds(capacity, target);
      if GrowCapacity(capacity, target) == target {
        assert canAlloc(target) == canAlloc(GrowCapacity(capacity, target));
      }
    }
  }

  /** A concrete case: a 5000-byte write at cursor 0 into a fresh 4096-byte
      stream whose allocator refuses anything above 5000 bytes. The loop picks
      6624, that allocation fails, the fallback gets 5000 bytes, and 6624 is
      recorded. A following 1624-byte write at cursor 5000 then needs no
      growth and copies past the end of the 5000-byte block. */
  lemma GrowFallbackCounterexample()
    ensures GrowAsWritten(InitialCapacity, 5000, n => n <= 5000) == Some(GrowRecord(6624, 5000))
  {
    assert GoldenGrowthCeil(4096) == 6624;
    assert GrowCurve(6624, 5000) == 6624;
    assert GrowCurve(4096, 5000) == 6624;
  }
}
