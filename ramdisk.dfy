// The growable RAM-disk byte stream (src/hdd/ramdisk/ramdisk.c and its
// contract in includes/private/hdd/ramdisk/ramdisk.h).
//
// `ramdisk_stream_t` keeps the allocated block (`mem`, `_size`), the expected
// size that marks end-of-file (`size`) and the cursor. `ramdisk_t` is a
// one-field wrapper around a stream pointer; its operations are methods of
// the same class here. An allocation request for `n` bytes succeeds iff
// `canAlloc(n)`; the bytes a `realloc` adds are unspecified, so no contract
// below says anything about them.

module RamDisk {
  import opened Common
  import opened RamDiskGrowth

  /** The failure tag left in `errno`. */
  datatype Errno = NoError | Overflow | NoMemory | InvalidArgument

  /** `whence` values of `ramdisk_seek` (POSIX `SEEK_SET`, `SEEK_CUR`, `SEEK_END`). */
  const SeekSet: int := 0
  const SeekCur: int := 1
  const SeekEnd: int := 2

  /** Range of a 64-bit `off_t`, and the modulus of a 64-bit `size_t`. */
  const OffMin: int := -0x8000_0000_0000_0000
  const OffMax: int := 0x7FFF_FFFF_FFFF_FFFF
  const SizeModulus: int := 0x1_0000_0000_0000_0000

  /** Where SET, CUR and END measure from; `None` for any other `whence`. */
  function SeekBase(whence: int, cursor: nat, size: nat): Option<nat>
  {
    if whence == SeekSet then Some(0)
    else if whence == SeekCur then Some(cursor)
    else if whence == SeekEnd then Some(size)
    else None
  }

  /** `ramdisk_seek` stores the candidate in a `size_t`, so its `< 0` test is
      dead code. A negative candidate is still rejected, because it wraps to a
      value above the ceiling: the unsigned test rejects exactly the
      candidates outside `[0, MAX_STREAM_SIZE]`. */
  lemma WrappedSeekCandidate(base: nat, offset: int)
    requires base <= MaxStreamSize && OffMin <= offset <= OffMax
    ensures (base + offset) % SizeModulus <= MaxStreamSize <==> 0 <= base + offset <= MaxStreamSize
    ensures 0 <= base + offset <= MaxStreamSize ==> (base + offset) % SizeModulus == base + offset
  {
    var sum := base + offset;
    if sum < 0 {
      assert 0 <= sum + SizeModulus < SizeModulus;
      assert sum % SizeModulus == sum + SizeModulus;
    } else {
      assert sum < SizeModulus;
      assert sum % SizeModulus == sum;
    }
  }

  /** `ramdisk_stream_copy_buf`: how many bytes a copy between a destination
      of `dstSize` and a source of `srcSize` bytes moves. */
  function CopyLen(dstSize: nat, srcSize: nat): (len: nat)
    ensures len <= dstSize && len <= srcSize
    ensures len == dstSize || len == srcSize
  {
    if srcSize < dstSize then srcSize else dstSize
  }

  /** The count `ramdisk_write` keeps after clamping a request of `n` bytes at
      `cursor` so that the write ends at the ceiling at the latest. */
  function WriteCount(cursor: nat, n: nat): (k: nat)
    requires cursor <= MaxStreamSize
    ensures k <= n && cursor + k <= MaxStreamSize
    ensures k < n ==> cursor + k == MaxStreamSize
  {
    if cursor > MaxStreamSize - n then MaxStreamSize - cursor else n
  }

  class Stream {
    /** The allocated block; its length is `_size`. */
    var mem: seq<bv8>
    /** `_size`: bytes allocated. */
    var capacity: nat
    /** `size`: the expected size, where reads meet end-of-file. */
    var size: nat
    var cursor: nat

    /** The stream invariant: the block is as long as the recorded capacity,
        `size <= capacity <= MAX_STREAM_SIZE`, the capacity never falls below
        the initial 4 KiB, and the cursor (which may lie past `size` and even
        past `capacity`) never passes the ceiling. */
    ghost predicate Valid()
      reads this
    {
      && |mem| == capacity
      && InitialCapacity <= capacity <= MaxStreamSize
      && size <= capacity
      && cursor <= MaxStreamSize
    }

    /** `ramdisk_stream_init` when `malloc` succeeds: 4 KiB allocated, empty,
        cursor at the start. */
    constructor ()
      ensures Valid()
      ensures capacity == InitialCapacity && size == 0 && cursor == 0
    {
      mem := Zeros(InitialCapacity);
      capacity := InitialCapacity;
      size := 0;
      cursor := 0;
    }

    /** `ramdisk_stream_grow`: make room for `required` bytes at the cursor.
        Fails with EOVERFLOW when that passes the ceiling, does nothing when it
        already fits, and otherwise grows along the golden-ratio curve (capped
        at the ceiling), falling back to exactly `cursor + required` bytes.
        The recorded capacity is the size actually allocated. */
    method Grow(required: nat, canAlloc: nat -> bool) returns (r: int, err: Errno)
      requires Valid() && required <= MaxStreamSize
      modifies this
      ensures Valid()
      ensures size == old(size) && cursor == old(cursor)
      ensures old(capacity) <= capacity && mem[..old(capacity)] == old(mem)
      ensures r == 0 <==>
        old(cursor) + required <= MaxStreamSize && GrowSucceeds(old(capacity), old(cursor) + required, canAlloc)
      ensures r == 0 ==> err == NoError && capacity == CapacityAfterGrow(old(capacity), old(cursor) + required, canAlloc)
      ensures r == 0 ==> cursor + required <= capacity
      ensures r != 0 ==> r == -1 && mem == old(mem) && capacity == old(capacity)
      ensures r != 0 ==> err == if old(cursor) + required > MaxStreamSize then Overflow else NoMemory
    {
      if cursor > MaxStreamSize - required {
        return -1, Overflow;
      }
      var target := required + cursor;
      var newSize := capacity;
      if target <= newSize {
        return 0, NoError;
      }
      while target > newSize
        invariant 0 < newSize
        invariant GrowCurve(newSize, target) == GrowCurve(capacity, target)
        decreases target - newSize
      {
        newSize := GoldenGrowthCeil(newSize);
      }
      if newSize > MaxStreamSize {
        newSize := MaxStreamSize;
      }
      var granted := newSize;
      if !canAlloc(newSize) {
        if newSize > target && canAlloc(target) {
          granted := target;
        } else {
          return -1, NoMemory;
        }
      }
      CapacityAfterGrowBounds(capacity, target, canAlloc);
      mem := mem + Zeros(granted - capacity);
      capacity := granted;
      r, err := 0, NoError;
    }

    /** `ramdisk_stream_resize`: grow the block to exactly `n` bytes. A no-op
        when `n` already fits, EOVERFLOW above the ceiling, ENOMEM when the
        allocator refuses; never shrinks. */
    method Resize(n: nat, canAlloc: nat -> bool) returns (r: int, err: Errno)
      requires Valid()
      modifies this
      ensures Valid()
      ensures size == old(size) && cursor == old(cursor)
      ensures old(capacity) <= capacity && mem[..old(capacity)] == old(mem)
      ensures r == 0 <==> n <= old(capacity) || (n <= MaxStreamSize && canAlloc(n))
      ensures r == 0 ==> err == NoError && capacity == Max(old(capacity), n)
      ensures r != 0 ==> r == -1 && mem == old(mem) && capacity == old(capacity)
      ensures r != 0 ==> err == if n > MaxStreamSize then Overflow else NoMemory
    {
      if n <= capacity {
        return 0, NoError;
      }
      if n > MaxStreamSize {
        return -1, Overflow;
      }
      if !canAlloc(n) {
        return -1, NoMemory;
      }
      mem := mem + Zeros(n - capacity);
      capacity := n;
      r, err := 0, NoError;
    }

    /** `ramdisk_stream_cursor_buf_r`: the readable view from the cursor to
        end-of-file, as its length (the view starts at the cursor). Fails when
        the cursor lies past end-of-file. */
    method CursorBufR() returns (r: int, len: nat)
      requires Valid()
      ensures r == 0 || r == -1
      ensures r == 0 <==> cursor <= size
      ensures r == 0 ==> cursor + len == size
    {
      if size < cursor {
        return -1, 0;
      }
      r, len := 0, size - cursor;
    }

    /** `ramdisk_stream_cursor_buf_w`: the writable view from the cursor to the
        end of the allocation, past end-of-file included. Fails when the
        cursor lies past the allocation. */
    method CursorBufW() returns (r: int, len: nat)
      requires Valid()
      ensures r == 0 || r == -1
      ensures r == 0 <==> cursor <= capacity
      ensures r == 0 ==> cursor + len == capacity
    {
      if capacity < cursor {
        return -1, 0;
      }
      r, len := 0, capacity - cursor;
    }

    /** `ramdisk_get_cursor_mem`: the writable view. Because the model hands
        out a length (from the cursor) rather than a pointer, a view taken
        before a later write or `set_size` cannot dangle; the capacity never
        shrinks, so it stays inside the block. */
    method GetCursorMem() returns (r: int, len: nat)
      requires Valid()
      ensures r == 0 || r == -1
      ensures r == 0 <==> cursor <= capacity
      ensures r == 0 ==> cursor + len == capacity
    {
      r, len := CursorBufW();
    }

    /** Stores made by the caller through the writable view: `data` lands at
        the cursor; sizes and cursor stay as they are. */
    method WriteView(data: seq<bv8>)
      requires Valid() && cursor + |data| <= capacity
      modifies this
      ensures Valid()
      ensures capacity == old(capacity) && size == old(size) && cursor == old(cursor)
      ensures mem == Splice(old(mem), cursor, data)
    {
      mem := Splice(mem, cursor, data);
    }

    /** `ramdisk_set_size`: make `n` the expected size, growing the block to
        exactly `n` when needed. Sets the size even when that shrinks it.
        Returns 0, or -1 when the resize fails (and then nothing changes). */
    method SetSize(n: nat, canAlloc: nat -> bool) returns (r: int, err: Errno)
      requires Valid()
      modifies this
      ensures Valid()
      ensures cursor == old(cursor) && old(capacity) <= capacity && mem[..old(capacity)] == old(mem)
      ensures r == 0 <==> n <= old(capacity) || (n <= MaxStreamSize && canAlloc(n))
      ensures r == 0 ==> err == NoError && size == n && capacity == Max(old(capacity), n)
      ensures r != 0 ==> r == -1 && mem == old(mem) && capacity == old(capacity) && size == old(size)
      ensures r != 0 ==> err == if n > MaxStreamSize then Overflow else NoMemory
    {
      if n > capacity {
        r, err := Resize(n, canAlloc);
        if r < 0 {
          return;
        }
      }
      size := n;
      r, err := 0, NoError;
    }

    /** `ramdisk_write`: copy `buf` to the cursor, clamped so that the write
        ends at the ceiling at the latest, growing the block as needed.
        Returns the clamped count (0 only at the ceiling or for an empty
        buffer) and advances the cursor by it; end-of-file moves up to the
        cursor when the write ends past it. Returns -1 (ENOMEM) with nothing
        changed only when growth was needed and the allocator refused. */
    method Write(buf: seq<bv8>, canAlloc: nat -> bool) returns (r: int, err: Errno)
      requires Valid() && |buf| <= MaxStreamSize
      modifies this
      ensures Valid()
      ensures r == -1 <==> !GrowSucceeds(old(capacity), old(cursor) + WriteCount(old(cursor), |buf|), canAlloc)
      ensures r == -1 ==>
        && err == NoMemory
        && mem == old(mem) && capacity == old(capacity) && size == old(size) && cursor == old(cursor)
      ensures r != -1 ==>
        && r == WriteCount(old(cursor), |buf|)
        && err == NoError
        && cursor == old(cursor) + r
        && capacity == CapacityAfterGrow(old(capacity), cursor, canAlloc)
        && old(capacity) <= capacity && cursor <= capacity
        && mem[old(cursor)..cursor] == buf[..r]
        && (forall i :: 0 <= i < old(capacity) && !(old(cursor) <= i < cursor) ==> mem[i] == old(mem)[i])
        && size == Max(old(size), cursor)
    {
      var n := |buf|;
      if cursor > MaxStreamSize - n {
        n := MaxStreamSize - cursor;
      }
      var grown, growErr := Grow(n, canAlloc);
      if grown < 0 {
        return -1, growErr;
      }
      var viewErr, room := CursorBufW();
      if viewErr < 0 {
        return 0, NoError;
      }
      // `written > INT_MAX` cannot hold: `written <= MAX_STREAM_SIZE == INT_MAX`.
      var written := CopyLen(room, n);
      ghost var before := mem;
      mem := Splice(mem, cursor, buf[..written]);
      assert forall i :: 0 <= i < old(capacity) ==> before[i] == old(mem)[i];
      cursor := cursor + written;
      if size < cursor {
        size := cursor;
      }
      r, err := written, NoError;
    }

    /** `ramdisk_read`: copy up to `n` bytes from the cursor, never past
        end-of-file. Returns 0 (cursor unchanged) at or past end-of-file, and
        otherwise `min(n, size - cursor)` bytes, advancing the cursor by that
        many. The clamp at the ceiling never binds, since `size` is below it.
        Never changes the block, the capacity or the size. */
    method Read(n: nat) returns (r: int, data: seq<bv8>)
      requires Valid()
      modifies this
      ensures Valid()
      ensures mem == old(mem) && capacity == old(capacity) && size == old(size)
      ensures r == if old(cursor) < size then Min(n, size - old(cursor)) else 0
      ensures cursor == old(cursor) + r
      ensures data == if r == 0 then [] else mem[old(cursor)..cursor]
    {
      var k := n;
      if cursor > MaxStreamSize - k {
        k := MaxStreamSize - cursor;
      }
      if k == 0 {
        return 0, [];
      }
      var viewErr, avail := CursorBufR();
      if viewErr != 0 {
        // nothing is copied: `written` stays 0 and the cursor does not move
        return 0, [];
      }
      if avail == 0 {
        return 0, [];
      }
      var copied := CopyLen(k, avail);
      data := mem[cursor..cursor + copied];
      cursor := cursor + copied;
      r := copied;
    }

    /** `ramdisk_seek`: move the cursor to `offset` from the start, the cursor
        or end-of-file. Any other `whence` fails with EINVAL; a target that is
        negative or past the ceiling fails with EOVERFLOW. On failure the
        cursor stays; on success it is returned. Never touches the block or
        the sizes. */
    method Seek(offset: int, whence: int) returns (r: int, err: Errno)
      requires Valid() && OffMin <= offset <= OffMax
      modifies this
      ensures Valid()
      ensures mem == old(mem) && capacity == old(capacity) && size == old(size)
      ensures SeekBase(whence, old(cursor), size).None? ==>
        r == -1 && err == InvalidArgument && cursor == old(cursor)
      ensures SeekBase(whence, old(cursor), size).Some? ==>
        var target := SeekBase(whence, old(cursor), size).value + offset;
        if 0 <= target <= MaxStreamSize
        then r == target && cursor == target && err == NoError
        else r == -1 && cursor == old(cursor) && err == Overflow
    {
      var base: nat;
      if whence == SeekSet {
        base := 0;
      } else if whence == SeekCur {
        base := cursor;
      } else if whence == SeekEnd {
        base := size;
      } else {
        return -1, InvalidArgument;
      }
      // `size_t new_offset`: the sum is reduced modulo 2^64, so the source's
      // `new_offset < 0` test can never hold and only the upper bound rejects.
      var candidate := (base + offset) % SizeModulus;
      WrappedSeekCandidate(base, offset);
      if candidate > MaxStreamSize {
        return -1, Overflow;
      }
      cursor := candidate;
      r, err := candidate, NoError;
    }

    /** `ramdisk_load_file`: make the block at least as large as the file
        (exactly its length when it must grow), put the cursor at 0, read up
        to the whole writable view from the file and, when at least one byte
        arrived, make the byte count the expected size; an empty file leaves
        the size alone. The cursor stays at 0. Returns the byte count, or -1
        when the resize fails (and then nothing changes). */
    method LoadFile(file: seq<bv8>, canAlloc: nat -> bool) returns (r: int, err: Errno)
      requires Valid()
      modifies this
      ensures Valid()
      ensures r == -1 <==> !(|file| <= old(capacity) || (|file| <= MaxStreamSize && canAlloc(|file|)))
      ensures r == -1 ==>
        mem == old(mem) && capacity == old(capacity) && size == old(size) && cursor == old(cursor)
      ensures r != -1 ==>
        && r == |file|
        && err == NoError
        && cursor == 0
        && capacity == Max(old(capacity), |file|)
        && mem[..|file|] == file
        && (forall i :: |file| <= i < old(capacity) ==> mem[i] == old(mem)[i])
        && size == if 0 < |file| then |file| else old(size)
    {
      // fseek(fp, 0, SEEK_END) and ftell(fp) give the file length.
      var fileSize := |file|;
      var resized, resizeErr := Resize(fileSize, canAlloc);
      if resized < 0 {
        return -1, resizeErr;
      }
      var pos, seekErr := Seek(0, SeekSet);
      var viewErr, room := CursorBufW();
      if viewErr < 0 {
        return -1, NoError;
      }
      // fread(buf, 1, buf_size, fp): asks for the whole view, gets the file.
      var len := Min(|file|, room);
      ghost var before := mem;
      WriteView(file[..len]);
      assert forall i :: |file| <= i < old(capacity) ==> before[i] == old(mem)[i];
      if len > 0 {
        size := cursor + len;
      }
      r, err := len, NoError;
    }
  }

  /** A write followed by a seek back to where it started and a read of the
      same length returns exactly the bytes the write reports as written. */
  method WriteSeekReadBack(s: Stream, buf: seq<bv8>, canAlloc: nat -> bool) returns (written: int, back: seq<bv8>)
    requires s.Valid() && |buf| <= MaxStreamSize
    modifies s
    ensures s.Valid()
    ensures written != -1 ==> written == WriteCount(old(s.cursor), |buf|) && back == buf[..written]
  {
    var start := s.cursor;
    back := [];
    var err: Errno;
    written, err := s.Write(buf, canAlloc);
    if written == -1 {
      return;
    }
    ghost var stored := s.mem[start..start + written];
    assert stored == buf[..written];
    assert start + written <= s.size;
    assert written < |buf| ==> s.size == MaxStreamSize == start + written;
    var pos, seekErr := s.Seek(start, SeekSet);
    assert s.cursor == start && s.mem[start..start + written] == stored;
    var got;
    got, back := s.Read(|buf|);
    assert got == written;
  }
}
