// The virtual hard-disk image dispatch (src/hdd/hdd_file.c): which backend an
// image is attached through (a raw host file, a VHD image handled by the
// MiniVHD library, or a raw copy held in a RAM-disk stream), how a RAM-disk
// copy is ingested at attach time, and the sector read, write and format
// operations with their clamping and read-only rules.
//
// Host files are byte sequences and the file-system calls `hdd_load_ext`
// makes are the oracle `HostFs`; the MiniVHD calls are the oracle
// `VhdLibrary`. Allocation requests go to `canAlloc` as in the stream model.

module HddFile {
  import opened Common
  import opened RamDiskGrowth
  import opened RamDisk

  const SectorSize: nat := 512

  /** `is_ramdisk_file`: the name ends in ".rdimg" or ".rdvhd", compared
      byte for byte (so case matters). */
  function IsRamdiskFile(fn: string): (r: bool)
    ensures r <==> exists stem: string :: fn == stem + ".rdimg" || fn == stem + ".rdvhd"
  {
    var extLen := 6;
    if |fn| < extLen then false
    else
      var ext := fn[|fn| - extLen..];
      assert fn == fn[..|fn| - extLen] + ext;
      ext == ".rdimg" || ext == ".rdvhd"
  }

  /** The comparison does not fold case, and a bare extension is a name. */
  lemma RamdiskSuffixIsCaseSensitive()
    ensures IsRamdiskFile("disk.rdimg") && IsRamdiskFile(".rdvhd")
    ensures !IsRamdiskFile("DISK.RDIMG") && !IsRamdiskFile("disk.img") && !IsRamdiskFile("rdimg")
  {
    assert "disk.rdimg" == "disk" + ".rdimg";
    assert ".rdvhd" == "" + ".rdvhd";
  }

  // ---------------------------------------------------------------------
  // Sector clamping

  /** How many of `nr` sectors starting at `offset` lie on a disk of
      `sectors` sectors: all of them when they fit, otherwise the ones up to
      the end of the disk, and none when `offset` is at or past the end. */
  function TransferCount(sectors: nat, offset: nat, nr: nat): (t: nat)
    ensures t <= nr
    ensures 0 < t ==> offset + t <= sectors
    ensures t < nr ==> sectors <= offset + t
    ensures t == nr <==> nr == 0 || offset + nr <= sectors
  {
    if sectors <= offset then 0 else Min(nr, sectors - offset)
  }

  /** The status the RAW and RAW_RAM branches return: 1 when the request was
      clamped, 0 otherwise, whatever the bytes moved. */
  function SectorStatus(sectors: nat, offset: nat, nr: nat): (r: int)
    ensures r == 0 || r == 1
    ensures r == 1 <==> 0 < nr && sectors < offset + nr
  {
    if TransferCount(sectors, offset, nr) != nr then 1 else 0
  }

  /** A request running past the end is clamped and reported: 100 sectors,
      offset 95, 10 requested gives 5 sectors and status 1. */
  lemma ClampedRequestExample()
    ensures TransferCount(100, 95, 10) == 5 && SectorStatus(100, 95, 10) == 1
    ensures TransferCount(100, 90, 10) == 10 && SectorStatus(100, 90, 10) == 0
  {
  }

  /** The clamp as the source computes it on `int`:
      `if ((sectors - offset) < transfer) transfer = sectors - offset`. */
  function TransferAsWritten(sectors: int, offset: int, nr: int): (t: int)
    ensures t <= nr && t <= sectors - offset
    ensures t == nr || t == sectors - offset
  {
    if sectors - offset < nr then sectors - offset else nr
  }

  /** With the offset on the disk, the source's clamp is the count above. */
  lemma TransferAsWrittenAgrees(sectors: nat, offset: nat, nr: nat)
    requires offset <= sectors
    ensures TransferAsWritten(sectors, offset, nr) == TransferCount(sectors, offset, nr)
  {
  }

  /** Past the end, the source's count goes negative: 100 sectors, offset
      101, one sector requested gives -1, so `transfer_sectors * 512` is a
      negative byte count handed to `fread`/`fwrite`/`ramdisk_read`. */
  lemma TransferAsWrittenNegative()
    ensures TransferAsWritten(100, 101, 1) == -1
    ensures TransferCount(100, 101, 1) == 0
  {
  }

  // ---------------------------------------------------------------------
  // The outside world

  /** What `fopen64(fn, "rb")` / `fopen64(fn, "rb+")` gives: the file's
      bytes, a failure with ENOENT, or a failure for any other reason. */
  datatype OpenResult = Opened(contents: seq<bv8>) | Missing | Unopenable

  /** The host file system: `open(fn, readOnly)` as above, and whether
      `fopen64(fn, "wb+")` creates the file. */
  datatype HostFs = HostFs(open: (string, bool) -> OpenResult, create: string -> bool)

  /** An open MiniVHD image. */
  datatype VhdHandle = VhdHandle(id: nat)

  /** `MVHDGeom`: sectors per track, heads, cylinders. */
  datatype Geometry = Geometry(spt: nat, heads: nat, cylinders: nat)

  /** The return code of `mvhd_read_sectors` and the bytes it delivered. */
  datatype VhdTransfer = VhdTransfer(status: int, data: seq<bv8>)

  /** The MiniVHD calls this file makes: `mvhd_file_is_vhd` on the opened
      file, `mvhd_open(fn, readOnly)` (`None` when it fails),
      `mvhd_get_geometry`, and the sector read, write and format calls
      (arguments: handle, offset, count, and the buffer for writes). */
  datatype VhdLibrary = VhdLibrary(
    isVhd: seq<bv8> -> bool,
    open: (string, bool) -> Option<VhdHandle>,
    geometry: VhdHandle -> Geometry,
    readSectors: (VhdHandle, nat, nat) -> VhdTransfer,
    writeSectors: (VhdHandle, nat, nat, seq<bv8>) -> int,
    formatSectors: (VhdHandle, nat, nat) -> int)

  /** What `f` points to, read together with `img_type`: nothing
      (`f == NULL`, the state `hdd_close` leaves), a raw host file (its
      contents, and whether the stream was opened for writing: "rb+" and
      "wb+" are, "rb" is not), a MiniVHD image, or a RAM-disk stream. */
  datatype Backend = Detached | Raw(file: seq<bv8>, writable: bool) | Vhd(image: VhdHandle) | RawRam(disk: Stream)

  /** The open step of `hdd_load_ext` for a detached disk: open the file for
      reading (and writing unless `readOnly`); a VHD file is reopened through
      MiniVHD; a missing file is created empty unless `readOnly`; every other
      failure leaves the disk detached. A raw file is writable exactly when
      it was opened with write access. */
  function OpenImage(fn: string, readOnly: bool, fs: HostFs, lib: VhdLibrary): (b: Backend)
    ensures !b.RawRam?
    ensures b.Raw? ==> b.writable == !readOnly
    ensures b.Raw? ==> fs.open(fn, readOnly) == Opened(b.file) || (b.file == [] && fs.open(fn, readOnly).Missing?)
    ensures b.Vhd? ==> fs.open(fn, readOnly).Opened? && lib.open(fn, readOnly) == Some(b.image)
    // an existing file that is not a VHD is always bound as a raw file
    ensures fs.open(fn, readOnly).Opened? && !lib.isVhd(fs.open(fn, readOnly).contents) ==>
      b == Raw(fs.open(fn, readOnly).contents, !readOnly)
    // an existing VHD is bound iff MiniVHD opens it
    ensures fs.open(fn, readOnly).Opened? && lib.isVhd(fs.open(fn, readOnly).contents) ==>
      (b.Vhd? <==> lib.open(fn, readOnly).Some?) && (b.Vhd? || b.Detached?)
    // a missing file is bound, empty, iff it may and can be created
    ensures fs.open(fn, readOnly).Missing? ==>
      (b.Raw? <==> !readOnly && fs.create(fn)) && (b.Raw? || b.Detached?)
    ensures fs.open(fn, readOnly).Unopenable? ==> b.Detached?
  {
    match fs.open(fn, readOnly)
    case Opened(bytes) =>
      if !lib.isVhd(bytes) then Raw(bytes, !readOnly)
      else (match lib.open(fn, readOnly) case Some(h) => Vhd(h) case None => Detached)
    case Missing => if !readOnly && fs.create(fn) then Raw([], true) else Detached
    case Unopenable => Detached
  }

  /** An image attached read-only and then loaded again writable keeps its
      read-only host stream: the second load does not reopen the file. */
  lemma ReloadKeepsOpenMode(fn: string, bytes: seq<bv8>, fs: HostFs, lib: VhdLibrary)
    requires fs.open(fn, true) == Opened(bytes) && !lib.isVhd(bytes)
    ensures OpenImage(fn, true, fs, lib) == Raw(bytes, false)
    ensures Bound(OpenImage(fn, true, fs, lib), fn, false, fs, lib) == Raw(bytes, false)
  {
  }

  /** A read-only attach never creates a file: whatever it binds existed. */
  lemma ReadOnlyOpenNeverCreates(fn: string, fs: HostFs, lib: VhdLibrary)
    ensures !OpenImage(fn, true, fs, lib).Detached? ==> fs.open(fn, true).Opened?
  {
  }

  /** The backend `hdd_load_ext` continues with: the one already attached
      (`f != NULL` skips the open step), or what opening yields. */
  function Bound(current: Backend, fn: string, readOnly: bool, fs: HostFs, lib: VhdLibrary): (b: Backend)
    ensures !current.Detached? ==> b == current
    ensures b.RawRam? ==> b == current
    ensures current.Detached? && fs.open(fn, readOnly).Unopenable? ==> b.Detached?
  {
    if current.Detached? then OpenImage(fn, readOnly, fs, lib) else current
  }

  /** The geometry a load settles on for the backend it works on: the
      image's own for VHD, the caller's for a raw file, and the present one
      for a disk already held in RAM. */
  function LoadedGeometry(bound: Backend, lib: VhdLibrary, given: Geometry, current: Geometry): (g: Geometry)
    ensures bound.Vhd? ==> g == lib.geometry(bound.image)
    ensures bound.Raw? ==> g == given
    ensures !bound.Vhd? && !bound.Raw? ==> g == current
  {
    match bound
    case Vhd(h) => lib.geometry(h)
    case Raw(_, _) => given
    case _ => current
  }

  /** Whether ingesting `source` into a new RAM disk for a disk of `sectors`
      sectors succeeds: `ramdisk_init` gets its 4 KiB, `ramdisk_set_size` to
      `sectors * 512 + 1` gets its block, and then a raw file is loaded
      (which may grow the block to the file's length) or all sectors of a
      VHD image are read. Any other kind of backend is refused. */
  function IngestSucceeds(source: Backend, sectors: nat, lib: VhdLibrary, canAlloc: nat -> bool): (ok: bool)
    ensures ok ==> source.Raw? || source.Vhd?
    ensures ok ==> canAlloc(InitialCapacity) && sectors * SectorSize + 1 <= MaxStreamSize
    ensures ok && source.Vhd? ==> 0 <= lib.readSectors(source.image, 0, sectors).status
  {
    var wanted := sectors * SectorSize + 1;
    && canAlloc(InitialCapacity)
    && (wanted <= InitialCapacity || (wanted <= MaxStreamSize && canAlloc(wanted)))
    && match source
       case Raw(bytes, _) =>
         |bytes| <= Max(InitialCapacity, wanted) || (|bytes| <= MaxStreamSize && canAlloc(|bytes|))
       case Vhd(h) => 0 <= lib.readSectors(h, 0, sectors).status
       case _ => false
  }

  /** What a successfully ingested stream holds: a raw image's bytes at the
      start, with end-of-file at the image's length (or at
      `sectors * 512 + 1` for an empty file); or the bytes MiniVHD delivered
      for all sectors, with end-of-file at `sectors * 512 + 1`. */
  ghost function HoldsImage(rd: Stream, source: Backend, sectors: nat, lib: VhdLibrary): (ok: bool)
    reads rd
    ensures ok ==> source.Raw? || source.Vhd?
    ensures ok && source.Raw? ==> |source.file| <= |rd.mem| && rd.mem[..|source.file|] == source.file
    ensures ok && source.Raw? && source.file == [] ==> rd.size == sectors * SectorSize + 1
    ensures ok && source.Vhd? ==> rd.size == sectors * SectorSize + 1
  {
    var wanted := sectors * SectorSize + 1;
    match source
    case Raw(bytes, _) =>
      && |bytes| <= |rd.mem| && rd.mem[..|bytes|] == bytes
      && rd.size == if 0 < |bytes| then |bytes| else wanted
    case Vhd(h) =>
      var data := lib.readSectors(h, 0, sectors).data;
      var k := Min(|data|, sectors * SectorSize);
      && k <= |rd.mem| && rd.mem[..k] == data[..k]
      && rd.size == wanted
    case _ => false
  }

  /** `hdd_file_t`. */
  class HardDisk {
    var backend: Backend
    var spt: nat
    var hpc: nat
    var tracks: nat
    var sectors: nat
    var readOnly: bool

    ghost function Repr(): set<object>
      reads this
    {
      if backend.RawRam? then {this, backend.disk} else {this}
    }

    /** The sector count is the product of the geometry, and a RAM copy is a
        valid stream with room for every sector (ingestion sizes it to one
        byte more than the disk). */
    ghost predicate Valid()
      reads this, Repr()
    {
      && sectors == spt * hpc * tracks
      && (backend.RawRam? ==> backend.disk.Valid() && sectors * SectorSize < backend.disk.capacity)
    }

    /** A zero-initialised `hdd_file_t`: nothing attached. */
    constructor ()
      ensures Valid()
      ensures backend == Detached && sectors == 0 && !readOnly
    {
      backend := Detached;
      spt, hpc, tracks, sectors := 0, 0, 0, 0;
      readOnly := false;
    }

    /** The RAM-disk half of `hdd_load_ext`: a new stream holding the bound
        image, or `null` when any step fails (the partial stream is freed and
        the disk keeps its backend). */
    method Ingest(lib: VhdLibrary, canAlloc: nat -> bool) returns (rd: Stream?)
      ensures rd != null <==> IngestSucceeds(backend, sectors, lib, canAlloc)
      ensures rd != null ==>
        && fresh(rd) && rd.Valid() && rd.cursor == 0
        && sectors * SectorSize < rd.capacity
        && HoldsImage(rd, backend, sectors, lib)
    {
      if !canAlloc(InitialCapacity) {
        return null;
      }
      var s := new Stream();
      var wanted := sectors * SectorSize + 1;
      var sized, sizeErr := s.SetSize(wanted, canAlloc);
      if sized < 0 {
        return null;
      }
      match backend {
        case Raw(file, _) =>
          var loaded, loadErr := s.LoadFile(file, canAlloc);
          if loaded < 0 {
            return null;
          }
        case Vhd(h) =>
          // the cursor is at 0, so the view is the whole block
          var viewErr, room := s.GetCursorMem();
          if viewErr < 0 {
            return null;
          }
          var t := lib.readSectors(h, 0, sectors);
          if t.status < 0 {
            return null;
          }
          var k := Min(|t.data|, sectors * SectorSize);
          s.WriteView(t.data[..k]);
        case Detached =>
          return null;
        case RawRam(_) =>
          return null;
      }
      rd := s;
    }

    /** `hdd_load_ext(fn, spt, hpc, tracks, read_only)`. A RAM-disk name is
        opened and ingested read-only; the requested flag comes back only
        when ingestion succeeds. A detached disk is opened first (and stays
        untouched when that fails). The geometry comes from MiniVHD for a
        VHD image, from the caller for a raw file, and stays for a RAM copy;
        the sector count is recomputed. A successful ingestion replaces the
        backend by the RAM copy; a failed one keeps the opened backend. */
    method Load(fn: string, spt0: nat, hpc0: nat, tracks0: nat, requestedReadOnly: bool,
                fs: HostFs, lib: VhdLibrary, canAlloc: nat -> bool)
      requires Valid()
      modifies this
      ensures Valid()
      ensures
        var bound := Bound(old(backend), fn, requestedReadOnly || IsRamdiskFile(fn), fs, lib);
        bound.Detached? ==>
          backend.Detached? && spt == old(spt) && hpc == old(hpc) && tracks == old(tracks)
          && sectors == old(sectors) && readOnly == old(readOnly)
      ensures
        var bound := Bound(old(backend), fn, requestedReadOnly || IsRamdiskFile(fn), fs, lib);
        !bound.Detached? ==>
          Geometry(spt, hpc, tracks) ==
            LoadedGeometry(bound, lib, Geometry(spt0, hpc0, tracks0), Geometry(old(spt), old(hpc), old(tracks)))
      ensures
        var bound := Bound(old(backend), fn, requestedReadOnly || IsRamdiskFile(fn), fs, lib);
        !bound.Detached? && !IsRamdiskFile(fn) ==> backend == bound && readOnly == requestedReadOnly
      ensures
        var bound := Bound(old(backend), fn, requestedReadOnly || IsRamdiskFile(fn), fs, lib);
        !bound.Detached? && IsRamdiskFile(fn) ==>
          if IngestSucceeds(bound, sectors, lib, canAlloc) then
            && backend.RawRam? && fresh(backend.disk) && backend.disk.cursor == 0
            && HoldsImage(backend.disk, bound, sectors, lib)
            && readOnly == requestedReadOnly
          else
            backend == bound && readOnly
    {
      var ramdisk := IsRamdiskFile(fn);
      var ro := requestedReadOnly || ramdisk;
      if backend.Detached? {
        var attached := OpenImage(fn, ro, fs, lib);
        if attached.Detached? {
          return;
        }
        backend := attached;
      }
      SetGeometry(Geometry(spt0, hpc0, tracks0), lib);
      readOnly := ro;
      if ramdisk {
        var rd := Ingest(lib, canAlloc);
        if rd != null {
          backend := RawRam(rd);
          readOnly := requestedReadOnly;
        }
      }
    }

    /** The geometry step of `hdd_load_ext`: MiniVHD's geometry for a VHD
        image, the caller's for a raw file, the present one otherwise; then
        the sector count is their product. */
    method SetGeometry(given: Geometry, lib: VhdLibrary)
      requires Valid()
      modifies this
      ensures Valid() && backend == old(backend) && readOnly == old(readOnly)
      ensures Geometry(spt, hpc, tracks) == LoadedGeometry(backend, lib, given, Geometry(old(spt), old(hpc), old(tracks)))
      ensures backend.RawRam? ==> sectors == old(sectors)
    {
      match backend {
        case Vhd(h) =>
          var g := lib.geometry(h);
          spt, hpc, tracks := g.spt, g.heads, g.cylinders;
        case Raw(_, _) =>
          spt, hpc, tracks := given.spt, given.heads, given.cylinders;
        case RawRam(_) =>
        case Detached =>
      }
      sectors := spt * hpc * tracks;
    }

    /** `hdd_close`: release whatever is attached and detach. Geometry and
        the read-only flag stay; closing a detached disk changes nothing. */
    method Close()
      requires Valid()
      modifies this
      ensures Valid()
      ensures backend == Detached
      ensures spt == old(spt) && hpc == old(hpc) && tracks == old(tracks)
      ensures sectors == old(sectors) && readOnly == old(readOnly)
    {
      backend := Detached;
    }

    /** `hdd_read_sectors`: a VHD image answers through MiniVHD. A raw file
        or RAM copy delivers the clamped sectors from `offset * 512` (a file
        may hold fewer bytes than that) and reports 1 exactly when the
        request was clamped; the RAM copy's cursor ends after the bytes
        read, and nothing else changes. */
    method ReadSectors(offset: nat, nr: nat, lib: VhdLibrary) returns (r: int, data: seq<bv8>)
      requires Valid() && !backend.Detached? && offset <= sectors
      modifies Repr()
      ensures Valid() && unchanged(this)
      ensures backend.Vhd? ==>
        r == lib.readSectors(backend.image, offset, nr).status
        && data == lib.readSectors(backend.image, offset, nr).data
      ensures !backend.Vhd? ==> r == SectorStatus(sectors, offset, nr)
      ensures backend.Raw? ==>
        data == FileRead(backend.file, offset * SectorSize, TransferCount(sectors, offset, nr) * SectorSize)
      ensures backend.RawRam? ==>
        var s := backend.disk;
        var at := offset * SectorSize;
        && s.mem == old(s.mem) && s.capacity == old(s.capacity) && s.size == old(s.size)
        && |data| == (if at < s.size then Min(TransferCount(sectors, offset, nr) * SectorSize, s.size - at) else 0)
        && data == s.mem[at..at + |data|]
        && s.cursor == at + |data|
    {
      match backend {
        case Vhd(h) =>
          var t := lib.readSectors(h, offset, nr);
          r, data := t.status, t.data;
        case Raw(file, _) =>
          var transfer := TransferCount(sectors, offset, nr);
          data := FileRead(file, offset * SectorSize, transfer * SectorSize);
          r := if nr != transfer then 1 else 0;
        case RawRam(s) =>
          var transfer := TransferCount(sectors, offset, nr);
          var at := offset * SectorSize;
          var pos, seekErr := s.Seek(at, SeekSet);
          var got;
          got, data := s.Read(transfer * SectorSize);
          r := if nr != transfer then 1 else 0;
      }
    }

    /** `hdd_write_sectors`: a VHD image is written through MiniVHD without
        looking at the read-only flag. A read-only raw file or RAM copy
        returns 1 untouched. Otherwise the clamped sectors of `buffer` land at
        `offset * 512` (extending a raw file as needed) and the status is 1
        exactly when the request was clamped. The `fwrite` to a raw file
        opened without write access fails unreported: the file stays as it
        was and the status is the same. A RAM copy never grows here: the
        block already has room for every sector. */
    method WriteSectors(offset: nat, nr: nat, buffer: seq<bv8>, lib: VhdLibrary, canAlloc: nat -> bool)
      returns (r: int)
      requires Valid() && !backend.Detached? && offset <= sectors && nr * SectorSize <= |buffer|
      modifies Repr()
      ensures Valid()
      ensures spt == old(spt) && hpc == old(hpc) && tracks == old(tracks)
      ensures sectors == old(sectors) && readOnly == old(readOnly)
      ensures old(backend).Vhd? ==>
        backend == old(backend) && r == lib.writeSectors(backend.image, offset, nr, buffer)
      ensures !old(backend).Vhd? && readOnly ==>
        r == 1 && backend == old(backend) && (backend.RawRam? ==> unchanged(backend.disk))
      ensures !old(backend).Vhd? && !readOnly ==> r == SectorStatus(sectors, offset, nr)
      ensures old(backend).Raw? && !readOnly && old(backend).writable ==>
        backend == Raw(Overwrite(old(backend).file, offset * SectorSize,
                                 buffer[..TransferCount(sectors, offset, nr) * SectorSize]), true)
      ensures old(backend).Raw? && !old(backend).writable ==> backend == old(backend)
      ensures old(backend).RawRam? ==> backend == old(backend)
      ensures old(backend).RawRam? && !readOnly ==>
        var s := old(backend).disk;
        var at := offset * SectorSize;
        var n := TransferCount(sectors, offset, nr) * SectorSize;
        && s.mem == Splice(old(s.mem), at, buffer[..n])
        && s.capacity == old(s.capacity) && s.cursor == at + n && s.size == Max(old(s.size), at + n)
    {
      match backend {
        case Vhd(h) =>
          r := lib.writeSectors(h, offset, nr, buffer);
        case Raw(file, writable) =>
          if readOnly {
            return 1;
          }
          var transfer := TransferCount(sectors, offset, nr);
          if writable {
            backend := Raw(Overwrite(file, offset * SectorSize, buffer[..transfer * SectorSize]), true);
          }
          r := if nr != transfer then 1 else 0;
        case RawRam(s) =>
          if readOnly {
            return 1;
          }
          var transfer := TransferCount(sectors, offset, nr);
          var at := offset * SectorSize;
          var pos, seekErr := s.Seek(at, SeekSet);
          ghost var before := s.mem;
          var written, writeErr := s.Write(buffer[..transfer * SectorSize], canAlloc);
          SpliceCharacterised(before, at, buffer[..transfer * SectorSize], s.mem);
          r := if nr != transfer then 1 else 0;
      }
    }

    /** `hdd_format_sectors`: a VHD image is formatted through MiniVHD
        without looking at the read-only flag. A read-only raw file or RAM
        copy returns 1 untouched. Otherwise the clamped sectors from
        `offset * 512` are zeroed one 512-byte sector at a time and the status
        is 1 exactly when the request was clamped; a raw file opened without
        write access stays as it was. */
    method FormatSectors(offset: nat, nr: nat, lib: VhdLibrary, canAlloc: nat -> bool) returns (r: int)
      requires Valid() && !backend.Detached? && offset <= sectors
      modifies Repr()
      ensures Valid()
      ensures spt == old(spt) && hpc == old(hpc) && tracks == old(tracks)
      ensures sectors == old(sectors) && readOnly == old(readOnly)
      ensures old(backend).Vhd? ==>
        backend == old(backend) && r == lib.formatSectors(backend.image, offset, nr)
      ensures !old(backend).Vhd? && readOnly ==>
        r == 1 && backend == old(backend) && (backend.RawRam? ==> unchanged(backend.disk))
      ensures !old(backend).Vhd? && !readOnly ==> r == SectorStatus(sectors, offset, nr)
      ensures old(backend).Raw? && !readOnly && old(backend).writable ==>
        backend == Raw(Overwrite(old(backend).file, offset * SectorSize,
                                 Zeros(TransferCount(sectors, offset, nr) * SectorSize)), true)
      ensures old(backend).Raw? && !old(backend).writable ==> backend == old(backend)
      ensures old(backend).RawRam? ==> backend == old(backend)
      ensures old(backend).RawRam? && !readOnly ==>
        var s := old(backend).disk;
        var at := offset * SectorSize;
        var n := TransferCount(sectors, offset, nr) * SectorSize;
        && s.mem == Splice(old(s.mem), at, Zeros(n))
        && s.capacity == old(s.capacity) && s.cursor == at + n
        && s.size == (if n == 0 then old(s.size) else Max(old(s.size), at + n))
    {
      match backend {
        case Vhd(h) =>
          r := lib.formatSectors(h, offset, nr);
        case Raw(file, writable) =>
          if readOnly {
            return 1;
          }
          var transfer := TransferCount(sectors, offset, nr);
          var f := ZeroFileSectors(file, offset * SectorSize, transfer);
          if writable {
            backend := Raw(f, true);
          }
          r := if nr != transfer then 1 else 0;
        case RawRam(s) =>
          if readOnly {
            return 1;
          }
          var transfer := TransferCount(sectors, offset, nr);
          var pos, seekErr := s.Seek(offset * SectorSize, SeekSet);
          ZeroStreamSectors(s, transfer, canAlloc);
          r := if nr != transfer then 1 else 0;
      }
    }
  }

  /** The raw-file loop of `hdd_format_sectors`: after `fseeko64(at)`,
      `count` writes of a 512-byte zero sector, each at the position the
      previous one left. */
  method ZeroFileSectors(file: seq<bv8>, at: nat, count: nat) returns (f: seq<bv8>)
    ensures f == Overwrite(file, at, Zeros(count * SectorSize))
  {
    var zero := Zeros(SectorSize);
    var pos := at;
    f := file;
    var c := 0;
    while c < count
      invariant 0 <= c <= count
      invariant pos == at + c * SectorSize
      invariant f == Overwrite(file, at, Zeros(c * SectorSize))
    {
      OverwriteConsecutive(file, at, Zeros(c * SectorSize), zero);
      assert Zeros(c * SectorSize) + zero == Zeros((c + 1) * SectorSize);
      f := Overwrite(f, pos, zero);
      pos := pos + SectorSize;
      c := c + 1;
    }
  }

  /** The RAM-copy loop of `hdd_format_sectors`: `count` calls of
      `ramdisk_write` with a 512-byte zero sector from the cursor, which
      never need to grow the block. */
  method ZeroStreamSectors(s: Stream, count: nat, canAlloc: nat -> bool)
    requires s.Valid() && s.cursor + count * SectorSize <= s.capacity
    modifies s
    ensures s.Valid()
    ensures s.mem == Splice(old(s.mem), old(s.cursor), Zeros(count * SectorSize))
    ensures s.capacity == old(s.capacity) && s.cursor == old(s.cursor) + count * SectorSize
    ensures s.size == if count == 0 then old(s.size) else Max(old(s.size), s.cursor)
  {
    var zero := Zeros(SectorSize);
    var c := 0;
    while c < count
      invariant 0 <= c <= count
      invariant s.Valid() && s.capacity == old(s.capacity)
      invariant s.cursor == old(s.cursor) + c * SectorSize
      invariant s.mem == Splice(old(s.mem), old(s.cursor), Zeros(c * SectorSize))
      invariant s.size == if c == 0 then old(s.size) else Max(old(s.size), s.cursor)
    {
      ghost var before := s.mem;
      ghost var here := s.cursor;
      var written, writeErr := s.Write(zero, canAlloc);
      SpliceCharacterised(before, here, zero, s.mem);
      SpliceConsecutive(old(s.mem), old(s.cursor), Zeros(c * SectorSize), zero);
      assert Zeros(c * SectorSize) + zero == Zeros((c + 1) * SectorSize);
      c := c + 1;
    }
  }

  /** Sectors written to a writable raw or RAM-copy disk read back as
      written: the clamped part of the buffer. */
  method WriteReadBack(d: HardDisk, offset: nat, nr: nat, buffer: seq<bv8>, lib: VhdLibrary, canAlloc: nat -> bool)
    returns (back: seq<bv8>)
    requires d.Valid() && (d.backend.Raw? || d.backend.RawRam?) && !d.readOnly
    requires d.backend.Raw? ==> d.backend.writable
    requires offset <= d.sectors && nr * SectorSize <= |buffer|
    modifies d.Repr()
    ensures back == buffer[..TransferCount(d.sectors, offset, nr) * SectorSize]
  {
    var w := d.WriteSectors(offset, nr, buffer, lib, canAlloc);
    var status;
    status, back := d.ReadSectors(offset, nr, lib);
    if d.backend.Raw? {
      FileReadAfterOverwrite(old(d.backend.file), offset * SectorSize,
                             buffer[..TransferCount(d.sectors, offset, nr) * SectorSize]);
    }
  }
}
