# PCem disk images, RAM disk and GRiD chipset in Dafny

This project models three pieces of the PCem emulator and proves properties of them:

- **The growable RAM-disk stream** (`src/hdd/ramdisk/ramdisk.c`, API in
  `includes/private/hdd/ramdisk/ramdisk.h`). This is a byte stream with:
  - an allocated block (`mem`, `_size`);
  - a logical end-of-file (`size`) kept apart from the allocation;
  - a cursor;
  - a ceiling of 2 GiB − 1 byte.

  Capacity grows along an integer golden-ratio curve. `set_size` and `load_file` resize it exactly.
- **The virtual hard-disk dispatch** (`src/hdd/hdd_file.c`). A disk is attached through one backend:
  - a raw host file;
  - a VHD image handled by the MiniVHD library;
  - a RAM copy ingested at attach time from a `.rdimg` / `.rdvhd` image.

  Sector reads, writes and formats are clamped to the disk and obey the read-only flag.
- **The GRiD EMS/XMS chipset** (`src/models/grid.c`). It consists of:
  - four EMS page registers that map 16 KiB windows at E0000h onto memory above A0000h;
  - a high-memory enable register that switches between those windows and a window at 1 MiB;
  - plain registers;
  - the bounds-checked 8- and 16-bit memory handlers behind both windows.

Files:

| file | module | contents |
|---|---|---|
| `common.dfy` | `Common` | `Option`, zero fills, `Splice` (a `memcpy` into a block), `Overwrite` / `FileRead` (host-file `fwrite` / `fread` at a position) |
| `ramdisk_growth.dfy` | `RamDiskGrowth` | the ceiling, `golden_growth_ceil`, the capacity the grow loop settles on, and the grow path as written |
| `ramdisk.dfy` | `RamDisk` | class `Stream`: `ramdisk_stream_t` and `ramdisk_t` with every stream operation |
| `hdd_file.dfy` | `HddFile` | suffix test, sector clamping, backends, class `HardDisk` (`hdd_file_t`) with load, close, read, write, format |
| `grid.dfy` | `Grid` | address translation, bounds-checked access, the register file as a value (`ChipState`) and class `Chipset` with the port and memory handlers |

The outside world enters as parameters:

- **Allocation.** A request for `n` bytes (`malloc` / `realloc`) succeeds iff `canAlloc(n)`.
- **Host files.** A host file is a `seq<bv8>`. The record `HostFs` gives:
  - the outcome of `fopen64(fn, "rb" | "rb+")`: the bytes, ENOENT, or another failure;
  - whether `fopen64(fn, "wb+")` creates the file.
- **MiniVHD.** The record `VhdLibrary` gives the results of `mvhd_file_is_vhd`, `mvhd_open`, `mvhd_get_geometry` and `mvhd_read/write/format_sectors`.
- **Chipset memory.** Main memory is an `array<bv8>` with its size `mem_size` in KiB.
- **Memory mappings.** Whether each `mem_mapping_t` is enabled is ghost state of the chipset.

Every imperative operation is a method. Its `ensures` ties the new state to a pure function of the old one: `Splice`, `Overwrite`, `CapacityAfterGrow`, `TransferCount`, `AfterIoWrite`, `EmsPaddr`, `Load16`, and so on. The properties the source promises are proved about those functions as lemmas.

Where the code and its own documentation differ, the model follows the code:

- **`ramdisk_load_file`.** The header says the file is loaded "at cursor" (`ramdisk.h:84-92`), but the code seeks to 0 first (`ramdisk.c:260`). The bytes therefore land at the start of the block, and the cursor is left at 0.
- **`ramdisk_get_cursor_mem`.** The header says it returns "0 on EOF" (`ramdisk.h:80`). It returns 0 whenever the cursor is inside the allocation, and −1 otherwise.
- **`ramdisk_seek`.** The test `new_offset < 0` (`ramdisk.c:238`) is on a `size_t`, so it never holds. A negative target is still rejected, because it wraps above the ceiling (`RamDisk.WrappedSeekCandidate`).
- **`grid_init`.** It enables the high-memory mapping while the high-enable register reads 0 (`grid.c:276`, `285-287`). The mapping invariant `MappingConsistent` therefore leaves the high mapping free while high memory is disabled.

## Model

| member | source | states |
|---|---|---|
| Common.Zeros | src/hdd/hdd_file.c:235-241 | the zero sector the format path writes: the requested length, every byte 0 |
| Common.Splice | src/hdd/ramdisk/ramdisk.c:129-133 | a copy into a block that already has room: same length, the data at the target range, every other byte unchanged |
| Common.SpliceConsecutive | src/hdd/hdd_file.c:254-255 | two copies where the second starts at the cursor the first left are one copy of the joined data |
| Common.Overwrite | src/hdd/hdd_file.c:211-212 | `fseeko64` + `fwrite` on a host file: an empty write changes nothing; otherwise the data lands at the position, the file grows to cover it, a gap past the old end reads as zeros, and bytes outside the range are kept |
| Common.OverwriteConsecutive | src/hdd/hdd_file.c:247-250 | two writes, the second at the position the first left, equal one write of both |
| Common.FileRead | src/hdd/hdd_file.c:178-179 | `fseeko64` + `fread` on a host file: the bytes that exist from the position, at most as many as requested, none past the end |
| Common.FileReadAfterOverwrite | src/hdd/hdd_file.c:178-179 | reading a host file at the position just written returns exactly the bytes written |
| RamDiskGrowth.GoldenGrowthCeil | src/hdd/ramdisk/ramdisk.c:48-57 | the step is `ceil(floor(207n/64)/2)`, bounded on both sides, and strictly above `n` for `n > 0`, so the grow loop terminates |
| RamDiskGrowth.GoldenGrowthMonotone | src/hdd/ramdisk/ramdisk.c:48-57 | a larger capacity never steps to a smaller one |
| RamDiskGrowth.GrowCurveBounds | src/hdd/ramdisk/ramdisk.c:71-73 | the growth loop reaches its target, never shrinks, and overshoots by at most one step from `target - 1` |
| RamDiskGrowth.CapacityAfterGrowBounds | src/hdd/ramdisk/ramdisk.c:60-89 | a successful grow leaves room for cursor plus request, stays under the 2 GiB − 1 ceiling, never shrinks, and changes the capacity iff the target did not fit |
| RamDiskGrowth.GrowAsWritten | src/hdd/ramdisk/ramdisk.c:65-88 | the grow path as the source writes it, the as-written half of the first finding: the block held has room for the target and never shrinks, the recorded size is never below the block, and a failure happens only when growth was needed and the exact target was refused |
| RamDiskGrowth.GrowAsWrittenOverstates | src/hdd/ramdisk/ramdisk.c:78-87 | the source's grow fails exactly when the corrected one does and holds the same block, but records a capacity larger than the block precisely when the fallback `realloc(required)` was taken |
| RamDiskGrowth.GrowFallbackCounterexample | src/hdd/ramdisk/ramdisk.c:78-87 | a 5000-byte write into a fresh stream whose allocator refuses more than 5000 bytes records 6624 bytes while holding 5000 |
| RamDisk.WrappedSeekCandidate | src/hdd/ramdisk/ramdisk.c:221-241 | after the `size_t` wrap the single upper-bound test accepts exactly the targets in `[0, MAX]` and leaves them unchanged |
| RamDisk.CopyLen | src/hdd/ramdisk/ramdisk.c:129-133 | the copy length fits both buffers and equals one of them |
| RamDisk.WriteCount | src/hdd/ramdisk/ramdisk.c:169-170 | the clamped write count never exceeds the request, ends at the ceiling at the latest, and is short only when it ends exactly at the ceiling |
| RamDisk.Stream.constructor | src/hdd/ramdisk/ramdisk.c:27-41 | a new stream holds 4 KiB, is empty, has its cursor at 0 and satisfies the stream invariant |
| RamDisk.Stream.Grow | src/hdd/ramdisk/ramdisk.c:60-89 | EOVERFLOW iff cursor + request passes the ceiling; ENOMEM iff the allocator refuses both the grown size and the exact fallback; on failure nothing changes; on success the capacity is `CapacityAfterGrow`, the old bytes are kept, and cursor + request fits |
| RamDisk.Stream.Resize | src/hdd/ramdisk/ramdisk.c:91-109 | no-op when `n` fits; EOVERFLOW above the ceiling and ENOMEM on refusal, with nothing changed; otherwise capacity becomes exactly `n` and the old bytes are kept |
| RamDisk.Stream.CursorBufR | src/hdd/ramdisk/ramdisk.c:112-118 | the read view fails iff the cursor is past end-of-file, otherwise it reaches exactly to end-of-file |
| RamDisk.Stream.CursorBufW | src/hdd/ramdisk/ramdisk.c:121-127 | the write view fails iff the cursor is past the allocation, otherwise it reaches exactly to the end of the allocation |
| RamDisk.Stream.GetCursorMem | src/hdd/ramdisk/ramdisk.c:247-249 | returns the write view: 0 and the room to the end of the allocation, or −1 when the cursor lies outside it |
| RamDisk.Stream.WriteView | includes/private/hdd/ramdisk/ramdisk.h:71-82 | stores made through the cursor pointer land at the cursor; sizes and cursor stay |
| RamDisk.Stream.SetSize | src/hdd/ramdisk/ramdisk.c:159-166 | success iff `n` fits or can be allocated under the ceiling; then the expected size is exactly `n` (even when smaller), the capacity `max(old, n)`, the bytes kept; on failure nothing changes |
| RamDisk.Stream.Write | src/hdd/ramdisk/ramdisk.c:168-192 | −1 (ENOMEM, nothing changed) iff growth was needed and refused; otherwise returns the clamped count, copies that prefix of the buffer to `[old cursor, new cursor)`, keeps every other old byte, advances the cursor, and sets size to `max(size, cursor)` |
| RamDisk.Stream.Read | src/hdd/ramdisk/ramdisk.c:194-219 | never changes block, capacity or size; returns 0 with the cursor unchanged at or past end-of-file; otherwise delivers and advances by `min(n, size - cursor)` bytes, which are the bytes at the cursor |
| RamDisk.Stream.Seek | src/hdd/ramdisk/ramdisk.c:221-245 | SET/CUR/END measure from 0, the cursor and end-of-file; any other whence is EINVAL; a target outside `[0, MAX]` is EOVERFLOW; failures leave the cursor; success sets and returns it; the block and sizes never change |
| RamDisk.Stream.LoadFile | src/hdd/ramdisk/ramdisk.c:251-272 | −1 with nothing changed iff the resize to the file's length fails; otherwise the file's bytes sit at the start, the capacity is `max(old, length)`, the cursor is 0, the bytes after the file are kept, and the size becomes the length unless the file is empty |
| RamDisk.WriteSeekReadBack | includes/private/hdd/ramdisk/ramdisk.h:40-69 | a write reports the clamped count, and a seek back to where it started and a read of the same length return exactly those bytes |
| HddFile.IsRamdiskFile | src/hdd/hdd_file.c:12-24 | true iff the name ends in ".rdimg" or ".rdvhd" |
| HddFile.RamdiskSuffixIsCaseSensitive | src/hdd/hdd_file.c:12-24 | the comparison is byte-exact (an upper-case suffix is not recognised) and a bare suffix counts |
| HddFile.TransferCount | src/hdd/hdd_file.c:171-174 | the clamped count never exceeds the request, stays on the disk, is short only when it reaches the last sector, and is the whole request iff that fits |
| HddFile.SectorStatus | src/hdd/hdd_file.c:187-189 | the status is 0 or 1, and 1 iff the request ran past the end of the disk |
| HddFile.ClampedRequestExample | src/hdd/hdd_file.c:171-189 | 100 sectors, offset 95, 10 requested moves 5 sectors and returns 1; offset 90 moves all 10 and returns 0 |
| HddFile.TransferAsWritten | src/hdd/hdd_file.c:171-174 | the clamp as the source computes it on `int`: never above the request or `sectors - offset`, and equal to one of them (so negative once the offset passes the end) |
| HddFile.TransferAsWrittenAgrees | src/hdd/hdd_file.c:173-174 | with the offset on the disk, the source's `int` clamp equals `TransferCount` |
| HddFile.TransferAsWrittenNegative | src/hdd/hdd_file.c:173-174 | with the offset past the end, the source's clamp goes negative (−1 for 100 sectors, offset 101, one sector) |
| HddFile.OpenImage | src/hdd/hdd_file.c:32-82 | an existing non-VHD file is always bound raw, writable iff opened with write access; an existing VHD is bound iff MiniVHD opens it; a missing file is bound empty and writable iff the open asked for write access and the file could be created; any other open failure leaves the disk detached; an open never yields a RAM copy |
| HddFile.ReadOnlyOpenNeverCreates | src/hdd/hdd_file.c:34-37 | a read-only open binds only a file that already existed |
| HddFile.ReloadKeepsOpenMode | src/hdd/hdd_file.c:32-37 | an image attached read-only and loaded again writable keeps its read-only host stream, because an attached disk is not reopened |
| HddFile.Bound | src/hdd/hdd_file.c:32 | an attached backend is kept as it is; a RAM copy comes only from an attached one; a detached disk whose file cannot be opened stays detached |
| HddFile.LoadedGeometry | src/hdd/hdd_file.c:83-94 | the geometry of a load: the VHD's own, the caller's for a raw file, otherwise the present one |
| HddFile.IngestSucceeds | src/hdd/hdd_file.c:97-141 | ingestion can succeed only from a raw file or a VHD, with the 4 KiB block allocated, `sectors*512 + 1` under the ceiling, and, for a VHD, a non-negative status from the bulk sector read |
| HddFile.HoldsImage | src/hdd/hdd_file.c:104-136 | what an ingested stream holds: a raw image's bytes at the start (with end-of-file at `sectors*512 + 1` for an empty file), or, for a VHD, end-of-file at `sectors*512 + 1` |
| HddFile.HardDisk.constructor | src/hdd/hdd_file.c:32 | stands for the zero-initialised `hdd_file_t` the load path starts from (`f == NULL`): detached, writable, with no sectors |
| HddFile.HardDisk.Ingest | src/hdd/hdd_file.c:97-146 | a new stream exists iff every allocation succeeds and the bound backend is a raw file or a readable VHD. It then holds the raw bytes, or the sectors MiniVHD delivered, from offset 0, with the cursor at 0 and room for every sector |
| HddFile.HardDisk.Load | src/hdd/hdd_file.c:26-148 | a failed open leaves the disk as it was; otherwise the geometry comes from the VHD, the caller or the existing copy. A non-RAM name keeps the bound backend and the requested flag. A RAM-disk name ends as a RAM copy holding the image with the requested flag when ingestion succeeds, and otherwise keeps the bound backend and is forced read-only |
| HddFile.HardDisk.SetGeometry | src/hdd/hdd_file.c:83-94 | VHD geometry from MiniVHD, raw geometry from the caller, otherwise unchanged; the sector count is their product |
| HddFile.HardDisk.Close | src/hdd/hdd_file.c:152-163 | always ends detached, keeps geometry and flag; closing twice is the same as closing once |
| HddFile.HardDisk.ReadSectors | src/hdd/hdd_file.c:165-193 | VHD answers through MiniVHD. Raw and RAM return 1 iff the request was clamped. Raw delivers the file bytes of the clamped sectors. RAM delivers the stream bytes from `offset*512` up to end-of-file with the cursor after them, and changes nothing else |
| HddFile.HardDisk.WriteSectors | src/hdd/hdd_file.c:195-226 | VHD writes through MiniVHD whatever the flag; read-only raw and RAM return 1 untouched. Otherwise the status is 1 iff clamped, and the clamped part of the buffer lands at `offset*512` (file extended as needed, stream never grown), except that a raw file opened without write access stays as it was; the geometry and flag stay |
| HddFile.HardDisk.FormatSectors | src/hdd/hdd_file.c:228-265 | VHD formats through MiniVHD whatever the flag; read-only raw and RAM return 1 untouched. Otherwise the status is 1 iff clamped and the clamped sectors from `offset*512` become zeros, except in a raw file opened without write access, which stays as it was |
| HddFile.ZeroFileSectors | src/hdd/hdd_file.c:247-250 | `count` successive 512-byte zero writes equal one overwrite of `count*512` zeros at the start position |
| HddFile.ZeroStreamSectors | src/hdd/hdd_file.c:251-255 | `count` successive 512-byte zero writes to the stream zero exactly `[cursor, cursor + count*512)`, advance the cursor past them, never grow the block, and move end-of-file up to the cursor |
| HddFile.WriteReadBack | src/hdd/hdd_file.c:165-226 | on a writable RAM disk, or a writable disk whose raw file was opened with write access, writing sectors and reading the same sectors returns the clamped part of the buffer |
| Grid.EmsSlot | src/models/grid.c:50 | the slot is one of the four page registers |
| Grid.PageFrame | src/models/grid.c:53 | the frame number has seven bits |
| Grid.EmsPaddr | src/models/grid.c:49-58 | through an unmapped page the address passes unchanged; through a mapped page the offset within the 16 KiB page is kept and the page becomes frame `A0000h/4000h + frame bits`, so the result lies in `[A0000h, 2A0000h)` |
| Grid.EmsSlotsShareFrame | src/models/grid.c:49-58 | two windows holding the same mapped page value reach the same bytes at equal offsets |
| Grid.EmsPaddrInjectiveInPage | src/models/grid.c:49-58 | within one mapped window, distinct addresses reach distinct bytes |
| Grid.HighPaddr | src/models/grid.c:95-97 | the high window subtracts 60000h modulo 2^32: adding it back gives the address, and above 60000h it is plain subtraction |
| Grid.HighWindowInBounds | src/models/grid.c:285-286 | every address of the high window as `grid_init` maps it (1 MiB, `mem_size - 640` KiB long) reaches memory from A0000h up and inside the bound |
| Grid.HighPaddrBelowShiftWraps | src/models/grid.c:95-97 | an address below 60000h wraps to the top of the 32-bit range and so fails the bounds check |
| Grid.EmsFrameIsHighWindowByte | src/models/grid.c:49-58 | a mapped EMS page reaches the same byte as the high window at 1 MiB plus that page's frame |
| Grid.Load8 | src/models/grid.c:67-76 | an 8-bit read inside the bound gives the byte, outside it FFh |
| Grid.Load16 | src/models/grid.c:85-93 | a 16-bit read inside the bound gives the byte at `p` as low half and the byte at `p + 1` as high half; outside it FFFFh |
| Grid.Store8 | src/models/grid.c:60-65 | an 8-bit store inside the bound sets that byte and no other; outside it memory is unchanged |
| Grid.Store16 | src/models/grid.c:78-83 | a 16-bit store inside the bound puts the low half at `p` and the high half at `p + 1` and changes no other byte; outside it memory is unchanged |
| Grid.Store8ThenLoad8 | src/models/grid.c:60-76 | a byte stored inside the bound reads back; stores outside are lost and reads there give FFh; no other byte changes |
| Grid.Store16ThenLoad16 | src/models/grid.c:78-93 | a 16-bit value stored inside the bound reads back whole, a store outside changes nothing, and only the two addressed bytes change |
| Grid.Load16IsTwoLoad8 | src/models/grid.c:85-93 | below the last byte a 16-bit read is the two 8-bit reads, low byte first |
| Grid.Access16AtLastByte | src/models/grid.c:78-93 | a 16-bit access at the last byte inside the bound reads and writes the byte just past it, which an 8-bit access reports as FFh |
| Grid.DecodePort | src/models/grid.c:143-211 | exactly the four EMS ports select a page register, the one given by bits 14-15; exactly 6F8h-6FFh select the ROM subsystem |
| Grid.EmsPortSlots | src/models/grid.c:19-22 | ports 0258h, 4258h, 8258h, C258h select page registers 0 to 3 |
| Grid.IoReadValue | src/models/grid.c:213-251 | 6F8h reads 99h, 6F9h-6FFh and every undecoded port read FFh |
| Grid.AfterPageWrite | src/models/grid.c:176-189 | a page write stores the value and touches no other register and no other slot's mapping; with high memory disabled the slot's window follows bit 7 of a new value |
| Grid.AfterHighEnableWrite | src/models/grid.c:190-208 | a high-enable write leaves the pages and plain registers alone; it either changes nothing or stores the byte while flipping bit 0, and then the high window is mapped iff bit 0 is now set |
| Grid.AfterIoWrite | src/models/grid.c:143-211 | a port write keeps the state well formed; writes to the ROM subsystem and to undecoded ports change nothing; writes to plain registers move no mapping |
| Grid.PageWriteKeepsMappingConsistent | src/models/grid.c:173-189 | a page write keeps the mapping invariant |
| Grid.IoWriteKeepsMappingConsistent | src/models/grid.c:143-211 | every port write keeps the mapping invariant: with high memory enabled only the high window is mapped, otherwise each EMS window is mapped iff its page has bit 7 set |
| Grid.HighEnableWriteKeepsMappingConsistent | src/models/grid.c:190-208 | a high-enable write keeps the mapping invariant |
| Grid.IoWriteReadBack | src/models/grid.c:143-251 | ports 426h, 424h, 440h, 405h, 416h and the page ports read back the last value written; the high-enable port does so iff the write flipped bit 0 or repeated the byte |
| Grid.IoWriteWithoutEffect | src/models/grid.c:154-194 | writes to the ROM subsystem or undecoded ports, page writes of the same value, and high-enable writes that keep bit 0 change nothing |
| Grid.IoWriteTouchesOneRegister | src/models/grid.c:143-211 | a port write changes what no other register reads |
| Grid.PageWriteWhileHighEnabled | src/models/grid.c:179-185 | with high memory enabled a new page value is stored but no mapping moves |
| Grid.HighEnableToggle | src/models/grid.c:190-208 | flipping bit 0 stores the whole byte. Turning it on maps the high window and unmaps all EMS windows. Turning it off unmaps the high window and maps each EMS window iff its page has bit 7 set |
| Grid.InitEstablishesConsistency | src/models/grid.c:253-291 | after initialisation the mapping invariant holds, turbo reads 1, high-enable reads 0 and every page port reads 0 |
| Grid.AfterInit | src/models/grid.c:253-291 | after initialisation every page is 0 and every EMS window unmapped, the high window is mapped, and the registers `grid_init` does not write keep their values |
| Grid.Chipset.constructor | src/models/grid.c:38-47 | the static initial values: every register 0 except turbo 1, nothing mapped |
| Grid.Chipset.Init | src/models/grid.c:253-291 | `grid_init` leaves the state `AfterInit`: pages 0, high-enable 0, turbo 1, EMS windows unmapped, high window mapped, other registers kept |
| Grid.Chipset.UpdateEmsMapping | src/models/grid.c:131-141 | the slot's window becomes mapped iff its page has bit 7 set; nothing else changes |
| Grid.Chipset.IoWrite | src/models/grid.c:143-211 | the new register state is `AfterIoWrite` of the old one (whose invariant and frame properties are the lemmas above) |
| Grid.Chipset.WritePage | src/models/grid.c:173-189 | the page case of the port write, as `AfterPageWrite` |
| Grid.Chipset.WriteHighEnable | src/models/grid.c:190-208 | the high-enable case of the port write, as `AfterHighEnableWrite` |
| Grid.Chipset.IoRead | src/models/grid.c:213-251 | the value read is `IoReadValue` of the current state |
| Grid.Chipset.EmsRead8 | src/models/grid.c:67-76 | the byte at the translated EMS address, or FFh outside memory |
| Grid.Chipset.EmsRead16 | src/models/grid.c:85-93 | the little-endian word at the translated EMS address, or FFFFh outside memory |
| Grid.Chipset.EmsWrite8 | src/models/grid.c:60-65 | stores the byte at the translated EMS address when inside memory, otherwise nothing changes |
| Grid.Chipset.EmsWrite16 | src/models/grid.c:78-83 | stores the little-endian word at the translated EMS address when inside memory, otherwise nothing changes |
| Grid.Chipset.HighRead8 | src/models/grid.c:105-113 | the byte at the high-window address minus 60000h, or FFh outside memory |
| Grid.Chipset.HighRead16 | src/models/grid.c:121-129 | the little-endian word at the high-window address minus 60000h, or FFFFh outside memory |
| Grid.Chipset.HighWrite8 | src/models/grid.c:99-103 | stores the byte at the high-window address minus 60000h when inside memory |
| Grid.Chipset.HighWrite16 | src/models/grid.c:115-119 | stores the little-endian word at the high-window address minus 60000h when inside memory |

## Left out

- **Real file I/O.** A raw backend records only whether its host stream was opened for writing; an `fwrite` through a stream opened "rb" is modelled as failing silently and changing nothing, and other write errors (a full disk) are not modelled. `fopen64`, `fseeko64`, `fread`, `fwrite`, `ftell`, `fclose` and the errno tests of the open step are not called. Host files are byte sequences and opening is the `HostFs` oracle. A raw backend's file changes only through this disk.
- **MiniVHD internals.** All MiniVHD calls are the `VhdLibrary` oracle. State kept inside a VHD handle (what a write changes for a later read) is not modelled, so VHD sector operations state only that they return the library's answer.
- **Allocation details.** `malloc`, `realloc` and `free` are the `canAlloc` oracle. Pointer identity, the cost of copying in `realloc`, and the bytes a `realloc` adds are not modelled. The new bytes are zero in the model, and no contract mentions them.
- **Releasing memory.** `ramdisk_free` and `ramdisk_stream_free` are left to the garbage-collected heap. `HardDisk.Close` only drops the backend.
- HddFile.HardDisk.Ingest: the small `malloc`s of the `ramdisk_t` and `ramdisk_stream_t` structs are assumed to succeed; only the 4 KiB block and later blocks consult `canAlloc`.
- RamDisk.Stream.constructor: models the successful `ramdisk_stream_init` only. The failure path (a NULL stream) is modelled inside `HardDisk.Ingest`, which checks the 4 KiB allocation first.
- RamDisk.Stream.Write: requires `|buf| <= MAX_STREAM_SIZE`. For a larger request the source's unsigned `MAX_STREAM_SIZE - size` (`src/hdd/ramdisk/ramdisk.c:169`, and `:195` in `ramdisk_read`) wraps on every `size_t` width, and that wrapped clamp is not modelled. Every caller in the core passes at most a disk's worth of sectors.
- RamDisk.Stream.Seek: `off_t` is 64 bits and `size_t` is 64 bits (the `n * 207` product of `golden_growth_ceil` never wraps). A 32-bit build is not modelled.
- HddFile.HardDisk.ReadSectors: requires `offset <= sectors`. The source has no such guard and computes a negative count past the end (see Findings). The same applies to HddFile.HardDisk.WriteSectors, HddFile.HardDisk.FormatSectors and HddFile.WriteReadBack.
- HddFile.HardDisk.ReadSectors: `fread(buffer, n*512, 1, f)` reads one item, so the C standard leaves the buffer's contents indeterminate after a short read. The model delivers the bytes that exist, as common C libraries do.
- HddFile.HardDisk.WriteSectors: requires the caller's buffer to hold `nr*512` bytes, which the source assumes of its callers without checking.
- HddFile.HardDisk.Load: geometry arguments are naturals. Negative `int` geometry, and `int` overflow of `spt*hpc*tracks` and of `sectors*512`, are not modelled.
- **Logging and errno.** `pclog` messages and errno values beyond the failure tag (`Errno`) are not modelled.
- **`hdd_load`.** The wrapper (`src/hdd/hdd_file.c:150`) reads the global `hdc[]` table, which is not part of this model; it is `HardDisk.Load` with that table's geometry and `read_only = 0`.
- **Chipset side effects.** `cpu_set_turbo`, `flushmmucache`, `io_sethandler`, `mem_mapping_add`, `mem_mapping_set_exec` and the disabling of `bios_mapping` have no counterpart. Mappings are the ghost flags `emsMapped` and `highMapped`. Turbo is only the stored register.
- **Unused state.** `grid_unknown` (`src/models/grid.c:38`) is never read or written by the core, so it has no field.
- Grid.Chipset.constructor: requires memory to hold one byte past `mem_size << 10`, because a 16-bit access at the last byte inside the bound touches it (`Grid.Access16AtLastByte`). The emulator's own allocation of `ram` is not part of this model.
- **Unaligned accesses.** The `*(uint16_t *)&ram[addr]` accesses are modelled as little-endian byte pairs. Unaligned-access faults on other hosts are not modelled.

## Findings

| source | as written | input that shows it | evidently intended | confidence | as-written member | corrected member |
|---|---|---|---|---|---|---|
| src/hdd/ramdisk/ramdisk.c:78-87 | after the fallback `realloc(mem, required)` succeeds, `_size` is set to the larger `newsize` | fresh stream (4096 bytes), write of 5000 bytes at cursor 0, allocator refusing more than 5000 bytes: 6624 recorded, 5000 held; a following 1624-byte write at cursor 5000 needs no growth and copies past the block | record the size actually allocated (`required` after the fallback) | not executed | RamDiskGrowth.GrowFallbackCounterexample | RamDisk.Stream.Grow |
| src/hdd/hdd_file.c:173-174 | `if ((sectors - offset) < transfer) transfer = sectors - offset` with no check that `offset <= sectors` | 100 sectors, offset 101, one sector requested: `transfer_sectors` is −1, so a negative byte count reaches `fread` / `fwrite` / `ramdisk_read` | transfer nothing past the end of the disk | not executed | HddFile.TransferAsWrittenNegative | HddFile.TransferCount |
