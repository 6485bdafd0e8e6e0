// The GRiD chipset of the LaserXT-series machines (src/models/grid.c): four
// EMS page registers that map 16 KiB windows at E0000h onto extended memory,
// a high-memory enable register that switches between EMS and a window at
// 1 MiB, a handful of plain registers, and the bounds-checked RAM access the
// memory handlers perform.
//
// Addresses and ports are naturals below 2^32 and 2^16. `ram` is the
// emulator's main memory and `memSize` its size in KiB; whether a
// `mem_mapping_t` is enabled is kept as ghost state (the mapping tables
// themselves belong to the memory subsystem, which is not part of this model).

module Grid {

  const AddrModulus: nat := 0x1_0000_0000
  const PortModulus: nat := 0x1_0000

  const PortEmsPage0: nat := 0x0258
  const PortEmsPage1: nat := 0x4258
  const PortEmsPage2: nat := 0x8258
  const PortEmsPage3: nat := 0xC258
  const PortTurbo: nat := 0x416
  const PortUnused424: nat := 0x424
  const Port426: nat := 0x426
  const PortHighEnable: nat := 0xFFF
  const PortRomSubsystem: nat := 0x6F8
  const PortRomSelect: nat := 0x440
  const PortRomEnable: nat := 0x405

  /** The EMS window, its 16 KiB pages, and the physical base of the memory
      the pages select from. */
  const EmsBase: nat := 0xE0000
  const EmsPageSize: nat := 0x4000
  const ExtendedBase: nat := 0xA0000
  const OneMiB: nat := 0x100000
  /** The high window at 1 MiB reads physical memory from A0000h. */
  const HighWindowShift: nat := 0x60000

  // ---------------------------------------------------------------------
  // Address translation

  /** `(addr >> 14) & 3`: which of the four page registers covers `addr`. */
  function EmsSlot(addr: nat): (slot: nat)
    ensures slot < 4
  {
    (addr / EmsPageSize) % 4
  }

  /** Bit 7 of a page register: the page is mapped. */
  predicate PageMapped(page: bv8)
  {
    page & 0x80 != 0
  }

  /** Bits 0-6 of a page register: the 16 KiB frame above A0000h. */
  function PageFrame(page: bv8): (f: nat)
    ensures f < 128
  {
    (page & 0x7F) as nat
  }

  /** Bit 0 of the high-enable register. */
  predicate HighEnabled(highEnable: bv8)
  {
    highEnable & 1 != 0
  }

  /** `get_grid_ems_paddr`: through a mapped page, the offset within the
      16 KiB page is kept and the page becomes frame `40 + frame bits` of
      physical memory (so below 2A0000h); through an unmapped one the address
      is passed on unchanged. */
  function EmsPaddr(pages: seq<bv8>, addr: nat): (p: nat)
    requires |pages| == 4
    ensures !PageMapped(pages[EmsSlot(addr)]) ==> p == addr
    ensures PageMapped(pages[EmsSlot(addr)]) ==>
      && p % EmsPageSize == addr % EmsPageSize
      && p / EmsPageSize == ExtendedBase / EmsPageSize + PageFrame(pages[EmsSlot(addr)])
      && ExtendedBase <= p < ExtendedBase + 128 * EmsPageSize
  {
    var page := pages[EmsSlot(addr)];
    if PageMapped(page) then ExtendedBase + PageFrame(page) * EmsPageSize + addr % EmsPageSize
    else addr
  }

  /** Two slots that hold the same mapped page value reach the same physical
      bytes: a store through one window is seen through the other. */
  lemma EmsSlotsShareFrame(pages: seq<bv8>, a: nat, b: nat)
    requires |pages| == 4
    requires pages[EmsSlot(a)] == pages[EmsSlot(b)] && PageMapped(pages[EmsSlot(a)])
    requires a % EmsPageSize == b % EmsPageSize
    ensures EmsPaddr(pages, a) == EmsPaddr(pages, b)
  {
  }

  /** Within one mapped window, distinct addresses reach distinct bytes. */
  lemma EmsPaddrInjectiveInPage(pages: seq<bv8>, a: nat, b: nat)
    requires |pages| == 4
    requires a / EmsPageSize == b / EmsPageSize && PageMapped(pages[EmsSlot(a)])
    requires a != b
    ensures EmsPaddr(pages, a) != EmsPaddr(pages, b)
  {
    assert a % EmsPageSize != b % EmsPageSize by {
      assert a == (a / EmsPageSize) * EmsPageSize + a % EmsPageSize;
      assert b == (b / EmsPageSize) * EmsPageSize + b % EmsPageSize;
    }
  }

  /** `get_grid_high_paddr`: `addr - 0x60000` in 32-bit unsigned
      arithmetic. */
  function HighPaddr(addr: nat): (p: nat)
    requires addr < AddrModulus
    ensures p < AddrModulus && (p + HighWindowShift) % AddrModulus == addr
    ensures HighWindowShift <= addr ==> p == addr - HighWindowShift
  {
    (addr - HighWindowShift) % AddrModulus
  }

  /** Every address of the high window, which starts at 1 MiB and spans
      `mem_size - 640` KiB, reaches memory inside the bound from A0000h up. */
  lemma HighWindowInBounds(memSize: nat, addr: nat)
    requires 640 <= memSize
    requires OneMiB <= addr < OneMiB + (memSize - 640) * 1024 && addr < AddrModulus
    ensures ExtendedBase <= HighPaddr(addr) < memSize * 1024
  {
  }

  /** An address below 60000h wraps to the top of the 32-bit range and so
      fails the bounds check of any memory below 4 GiB - 384 KiB. */
  lemma HighPaddrBelowShiftWraps(memSize: nat, addr: nat)
    requires addr < HighWindowShift && memSize * 1024 <= AddrModulus - HighWindowShift
    ensures memSize * 1024 <= HighPaddr(addr)
  {
  }

  /** A mapped EMS page reaches the same bytes as the high window at
      1 MiB plus the page's frame: both windows select from the memory that
      starts at A0000h. */
  lemma EmsFrameIsHighWindowByte(pages: seq<bv8>, addr: nat)
    requires |pages| == 4 && PageMapped(pages[EmsSlot(addr)])
    ensures OneMiB + PageFrame(pages[EmsSlot(addr)]) * EmsPageSize + addr % EmsPageSize < AddrModulus
    ensures EmsPaddr(pages, addr) ==
      HighPaddr(OneMiB + PageFrame(pages[EmsSlot(addr)]) * EmsPageSize + addr % EmsPageSize)
  {
  }

  // ---------------------------------------------------------------------
  // Bounds-checked memory access

  /** An 8-bit read of physical address `p` from memory whose checked size is
      `limit`: the byte, or all ones outside. */
  function Load8(mem: seq<bv8>, limit: nat, p: nat): (v: bv8)
    requires limit <= |mem|
    ensures p < limit ==> v == mem[p]
    ensures limit <= p ==> v == 0xFF
  {
    if p < limit then mem[p] else 0xFF
  }

  /** A 16-bit little-endian read. Only `p` is checked against `limit`, so a
      read at `limit - 1` takes its high byte from `mem[limit]`. */
  function Load16(mem: seq<bv8>, limit: nat, p: nat): (v: bv16)
    requires limit < |mem|
    ensures p < limit ==> (v & 0xFF) as bv8 == mem[p] && (v >> 8) as bv8 == mem[p + 1]
    ensures limit <= p ==> v == 0xFFFF
  {
    if p < limit then (mem[p] as bv16) | ((mem[p + 1] as bv16) << 8) else 0xFFFF
  }

  /** An 8-bit store: ignored outside the bound. */
  function Store8(mem: seq<bv8>, limit: nat, p: nat, v: bv8): (m: seq<bv8>)
    requires limit <= |mem|
    ensures |m| == |mem|
    ensures p < limit ==> m[p] == v
    ensures forall i :: 0 <= i < |mem| && (i != p || limit <= p) ==> m[i] == mem[i]
  {
    if p < limit then mem[p := v] else mem
  }

  /** A 16-bit little-endian store, checked like `Load16`. */
  function Store16(mem: seq<bv8>, limit: nat, p: nat, v: bv16): (m: seq<bv8>)
    requires limit < |mem|
    ensures |m| == |mem|
    ensures p < limit ==> m[p] == (v & 0xFF) as bv8 && m[p + 1] == (v >> 8) as bv8
    ensures forall i :: 0 <= i < |mem| && ((i != p && i != p + 1) || limit <= p) ==> m[i] == mem[i]
  {
    if p < limit then mem[p := (v & 0xFF) as bv8][p + 1 := (v >> 8) as bv8] else mem
  }

  /** A byte stored inside the bound reads back; outside it, stores are lost
      and reads give 0xFF; no other byte changes. */
  lemma Store8ThenLoad8(mem: seq<bv8>, limit: nat, p: nat, q: nat, v: bv8)
    requires limit <= |mem|
    ensures |Store8(mem, limit, p, v)| == |mem|
    ensures Load8(Store8(mem, limit, p, v), limit, q) ==
      if p == q && p < limit then v else Load8(mem, limit, q)
  {
  }

  /** A 16-bit value stored inside the bound reads back whole; a store outside
      changes nothing, and a store inside changes only `p` and `p + 1`. */
  lemma Store16ThenLoad16(mem: seq<bv8>, limit: nat, p: nat, v: bv16)
    requires limit < |mem|
    ensures |Store16(mem, limit, p, v)| == |mem|
    ensures p < limit ==> Load16(Store16(mem, limit, p, v), limit, p) == v
    ensures limit <= p ==> Store16(mem, limit, p, v) == mem
    ensures forall i :: 0 <= i < |mem| && i != p && i != p + 1 ==> Store16(mem, limit, p, v)[i] == mem[i]
  {
    if p < limit {
      var stored := Store16(mem, limit, p, v);
      assert stored[p] == (v & 0xFF) as bv8 && stored[p + 1] == (v >> 8) as bv8;
      JoinHalves(v);
    }
  }

  /** Splitting a 16-bit value into its low and high byte and joining them
      again gives the value back. */
  lemma JoinHalves(v: bv16)
    ensures (((v & 0xFF) as bv8) as bv16) | ((((v >> 8) as bv8) as bv16) << 8) == v
  {
  }

  /** Below the last byte, a 16-bit read is two 8-bit reads, low byte first. */
  lemma Load16IsTwoLoad8(mem: seq<bv8>, limit: nat, p: nat)
    requires limit < |mem| && p + 1 < limit
    ensures Load16(mem, limit, p) ==
      (Load8(mem, limit, p) as bv16) | ((Load8(mem, limit, p + 1) as bv16) << 8)
  {
  }

  /** At the last byte inside the bound the 16-bit access reaches one byte
      past it, where an 8-bit access sees nothing. */
  lemma Access16AtLastByte(mem: seq<bv8>, limit: nat, v: bv16)
    requires 0 < limit < |mem|
    ensures Load8(mem, limit, limit) == 0xFF
    ensures (Load16(mem, limit, limit - 1) >> 8) as bv8 == mem[limit]
    ensures Store16(mem, limit, limit - 1, v)[limit] == (v >> 8) as bv8
  {
    var lo := mem[limit - 1] as bv16;
    var hi := mem[limit] as bv16;
    assert ((lo | (hi << 8)) >> 8) == hi;
  }

  // ---------------------------------------------------------------------
  // Register file

  /** Everything the port handlers read or write: the plain registers, the
      four page registers, and which mappings are enabled. */
  datatype ChipState = ChipState(
    reg426: bv8, unused424: bv8, romSelect: bv8, romEnable: bv8, turbo: bv8,
    highEnable: bv8, pages: seq<bv8>, emsMapped: seq<bool>, highMapped: bool)

  predicate WellFormed(st: ChipState)
  {
    |st.pages| == 4 && |st.emsMapped| == 4
  }

  /** The mapping discipline the port handlers keep: with the high window
      enabled it is mapped and no EMS window is; otherwise each EMS window is
      mapped exactly when its page register has bit 7 set. (With high memory
      disabled the high window's own mapping is left free: `grid_init` maps
      it while the register reads 0.) */
  predicate MappingConsistent(st: ChipState)
  {
    && WellFormed(st)
    && (HighEnabled(st.highEnable) ==> st.highMapped && forall i :: 0 <= i < 4 ==> !st.emsMapped[i])
    && (!HighEnabled(st.highEnable) ==> forall i :: 0 <= i < 4 ==> st.emsMapped[i] == PageMapped(st.pages[i]))
  }

  /** The registers the `switch (port)` of the port handlers tells apart;
      `RomSubsystem(k)` is port 6F8h + k. */
  datatype Register =
    | Reg426 | RegUnused424 | RomSubsystem(index: nat) | RomSelect | RomEnable | Turbo
    | EmsPage(slot: nat) | HighEnable | NoRegister

  predicate IsEmsPagePort(port: nat)
  {
    port == PortEmsPage0 || port == PortEmsPage1 || port == PortEmsPage2 || port == PortEmsPage3
  }

  /** Which register `port` selects. */
  function DecodePort(port: nat): (r: Register)
    ensures r.EmsPage? <==> IsEmsPagePort(port)
    ensures r.EmsPage? ==> r.slot == EmsSlot(port)
    ensures r.RomSubsystem? <==> PortRomSubsystem <= port < PortRomSubsystem + 8
    ensures r.RomSubsystem? ==> r.index == port - PortRomSubsystem
  {
    if port == Port426 then Reg426
    else if port == PortUnused424 then RegUnused424
    else if PortRomSubsystem <= port < PortRomSubsystem + 8 then RomSubsystem(port - PortRomSubsystem)
    else if port == PortRomSelect then RomSelect
    else if port == PortRomEnable then RomEnable
    else if port == PortTurbo then Turbo
    else if IsEmsPagePort(port) then EmsPage(EmsSlot(port))
    else if port == PortHighEnable then HighEnable
    else NoRegister
  }

  /** The four page ports select slots 0 to 3 in order, and no other port
      selects a page register. */
  lemma EmsPortSlots()
    ensures DecodePort(PortEmsPage0) == EmsPage(0) && DecodePort(PortEmsPage1) == EmsPage(1)
    ensures DecodePort(PortEmsPage2) == EmsPage(2) && DecodePort(PortEmsPage3) == EmsPage(3)
  {
  }

  /** A write of `val` to the page register of `slot`: a repeated value
      changes nothing; otherwise the value is stored, and the slot's window
      follows bit 7 unless high memory is enabled. */
  function AfterPageWrite(st: ChipState, slot: nat, val: bv8): (r: ChipState)
    requires WellFormed(st) && slot < 4
    ensures WellFormed(r) && r.pages == st.pages[slot := val]
    ensures r.(pages := st.pages, emsMapped := st.emsMapped) == st
    ensures forall i :: 0 <= i < 4 && i != slot ==> r.emsMapped[i] == st.emsMapped[i]
    ensures !HighEnabled(st.highEnable) ==> r.emsMapped[slot] == (if st.pages[slot] == val then st.emsMapped[slot] else PageMapped(val))
  {
    if st.pages[slot] == val then st
    else if HighEnabled(st.highEnable) then st.(pages := st.pages[slot := val])
    else st.(pages := st.pages[slot := val], emsMapped := st.emsMapped[slot := PageMapped(val)])
  }

  /** A write of `val` to the high-enable register: dropped whole unless it
      flips bit 0; otherwise stored, and the windows switch over. */
  function AfterHighEnableWrite(st: ChipState, val: bv8): (r: ChipState)
    requires WellFormed(st)
    ensures WellFormed(r) && r.pages == st.pages
    ensures r.(highEnable := st.highEnable, emsMapped := st.emsMapped, highMapped := st.highMapped) == st
    ensures r == st || (r.highEnable == val && HighEnabled(val) != HighEnabled(st.highEnable))
    ensures r != st ==> r.highMapped == HighEnabled(val)
  {
    if (val ^ st.highEnable) & 1 == 0 then st
    else if HighEnabled(val) then
      st.(highEnable := val, emsMapped := [false, false, false, false], highMapped := true)
    else
      st.(highEnable := val, highMapped := false,
          emsMapped := seq(4, i requires 0 <= i < 4 => PageMapped(st.pages[i])))
  }

  /** The effect of `grid_io_write(port, val)` on the chipset state. */
  function AfterIoWrite(st: ChipState, port: nat, val: bv8): (r: ChipState)
    requires WellFormed(st)
    ensures WellFormed(r)
    ensures DecodePort(port).NoRegister? || DecodePort(port).RomSubsystem? ==> r == st
    ensures !DecodePort(port).EmsPage? && !DecodePort(port).HighEnable? ==>
      r.pages == st.pages && r.emsMapped == st.emsMapped && r.highMapped == st.highMapped
  {
    match DecodePort(port)
    case Reg426 => st.(reg426 := val)
    case RegUnused424 => st.(unused424 := val)
    case RomSubsystem(_) => st
    case RomSelect => st.(romSelect := val)
    case RomEnable => st.(romEnable := val)
    case Turbo => st.(turbo := val)
    case EmsPage(slot) => AfterPageWrite(st, slot, val)
    case HighEnable => AfterHighEnableWrite(st, val)
    case NoRegister => st
  }

  /** What `grid_io_read(port)` returns in state `st`: the ROM subsystem
      identifies itself with 99h at 6F8h and reads all ones at 6F9h-6FFh and
      at every port the chipset does not decode. */
  function IoReadValue(st: ChipState, port: nat): (v: bv8)
    requires WellFormed(st)
    ensures port == PortRomSubsystem ==> v == 0x99
    ensures PortRomSubsystem < port < PortRomSubsystem + 8 ==> v == 0xFF
    ensures DecodePort(port).NoRegister? ==> v == 0xFF
  {
    match DecodePort(port)
    case Reg426 => st.reg426
    case RegUnused424 => st.unused424
    case RomSubsystem(k) => if k == 0 then 0x99 else 0xFF
    case RomSelect => st.romSelect
    case RomEnable => st.romEnable
    case Turbo => st.turbo
    case EmsPage(slot) => st.pages[slot]
    case HighEnable => st.highEnable
    case NoRegister => 0xFF
  }

  /** A page write keeps the mapping discipline. */
  lemma PageWriteKeepsMappingConsistent(st: ChipState, slot: nat, val: bv8)
    requires MappingConsistent(st) && slot < 4
    ensures MappingConsistent(AfterPageWrite(st, slot, val))
  {
    var after := AfterPageWrite(st, slot, val);
    if st.pages[slot] != val && !HighEnabled(st.highEnable) {
      forall i | 0 <= i < 4 ensures after.emsMapped[i] == PageMapped(after.pages[i]) {
        if i != slot {
          assert after.emsMapped[i] == st.emsMapped[i];
        }
      }
    }
  }

  /** Every port write keeps the mapping discipline. */
  lemma IoWriteKeepsMappingConsistent(st: ChipState, port: nat, val: bv8)
    requires MappingConsistent(st)
    ensures WellFormed(AfterIoWrite(st, port, val))
    ensures MappingConsistent(AfterIoWrite(st, port, val))
  {
    match DecodePort(port) {
      case EmsPage(slot) => PageWriteKeepsMappingConsistent(st, slot, val);
      case HighEnable => HighEnableWriteKeepsMappingConsistent(st, val);
      case _ =>
    }
  }

  /** A high-enable write keeps the mapping discipline. */
  lemma HighEnableWriteKeepsMappingConsistent(st: ChipState, val: bv8)
    requires MappingConsistent(st)
    ensures MappingConsistent(AfterHighEnableWrite(st, val))
  {
  }

  /** A plain register, a page register or the turbo register reads back the
      last value written to it; the high-enable register does so only when
      the write flips bit 0 (or repeats the stored byte), because a write
      that leaves bit 0 alone is dropped whole. */
  lemma IoWriteReadBack(st: ChipState, port: nat, val: bv8)
    requires WellFormed(st)
    ensures WellFormed(AfterIoWrite(st, port, val))
    ensures DecodePort(port) in {Reg426, RegUnused424, RomSelect, RomEnable, Turbo} || IsEmsPagePort(port) ==>
      IoReadValue(AfterIoWrite(st, port, val), port) == val
    ensures port == PortHighEnable ==>
      (IoReadValue(AfterIoWrite(st, port, val), port) == val <==> (val ^ st.highEnable) & 1 != 0 || val == st.highEnable)
  {
  }

  /** A write to a port the chipset does not decode, or to the ROM subsystem
      ports, or of the value a page register already holds, or to the
      high-enable register that keeps bit 0, changes nothing. */
  lemma IoWriteWithoutEffect(st: ChipState, port: nat, val: bv8)
    requires WellFormed(st)
    requires || DecodePort(port).NoRegister? || DecodePort(port).RomSubsystem?
             || (IsEmsPagePort(port) && st.pages[EmsSlot(port)] == val)
             || (port == PortHighEnable && (val ^ st.highEnable) & 1 == 0)
    ensures AfterIoWrite(st, port, val) == st
  {
  }

  /** A write reaches only the register it addresses: every port that selects
      another register reads as before. */
  lemma IoWriteTouchesOneRegister(st: ChipState, port: nat, q: nat, val: bv8)
    requires WellFormed(st) && DecodePort(q) != DecodePort(port)
    ensures WellFormed(AfterIoWrite(st, port, val))
    ensures IoReadValue(AfterIoWrite(st, port, val), q) == IoReadValue(st, q)
  {
    var after := AfterIoWrite(st, port, val);
    match DecodePort(port) {
      case EmsPage(slot) =>
        match DecodePort(q) {
          case EmsPage(other) => assert after.pages[other] == st.pages[other];
          case _ =>
        }
      case _ =>
    }
  }

  /** While high memory is enabled, a new page value is stored but no
      mapping moves. */
  lemma PageWriteWhileHighEnabled(st: ChipState, port: nat, val: bv8)
    requires WellFormed(st) && IsEmsPagePort(port) && HighEnabled(st.highEnable)
    ensures AfterIoWrite(st, port, val).pages == st.pages[EmsSlot(port) := val]
    ensures AfterIoWrite(st, port, val).emsMapped == st.emsMapped
    ensures AfterIoWrite(st, port, val).highMapped == st.highMapped
  {
  }

  /** Flipping bit 0 of the high-enable register on maps the high window and
      unmaps every EMS window; flipping it off unmaps the high window and maps
      each EMS window whose page has bit 7 set. The whole byte is stored. */
  lemma HighEnableToggle(st: ChipState, val: bv8)
    requires WellFormed(st) && (val ^ st.highEnable) & 1 != 0
    ensures AfterIoWrite(st, PortHighEnable, val).highEnable == val
    ensures AfterIoWrite(st, PortHighEnable, val).pages == st.pages
    ensures HighEnabled(val) ==>
      AfterIoWrite(st, PortHighEnable, val).highMapped
      && forall i :: 0 <= i < 4 ==> !AfterIoWrite(st, PortHighEnable, val).emsMapped[i]
    ensures !HighEnabled(val) ==>
      !AfterIoWrite(st, PortHighEnable, val).highMapped
      && forall i :: 0 <= i < 4 ==> AfterIoWrite(st, PortHighEnable, val).emsMapped[i] == PageMapped(st.pages[i])
  {
  }

  /** The state `grid_init` leaves: pages 0, high memory disabled, turbo on,
      no EMS window mapped and the high window mapped; the other registers
      keep their values. */
  function AfterInit(st: ChipState): (r: ChipState)
    ensures WellFormed(r) && r.highMapped
    ensures forall i :: 0 <= i < 4 ==> r.pages[i] == 0 && !r.emsMapped[i]
    ensures r.reg426 == st.reg426 && r.unused424 == st.unused424
    ensures r.romSelect == st.romSelect && r.romEnable == st.romEnable
  {
    st.(turbo := 1, highEnable := 0, pages := [0, 0, 0, 0],
        emsMapped := [false, false, false, false], highMapped := true)
  }

  /** Initialisation establishes the mapping discipline, and the registers
      read back the reset values. */
  lemma InitEstablishesConsistency(st: ChipState)
    ensures MappingConsistent(AfterInit(st))
    ensures IoReadValue(AfterInit(st), PortTurbo) == 1
    ensures IoReadValue(AfterInit(st), PortHighEnable) == 0
    ensures forall port :: IsEmsPagePort(port) ==> IoReadValue(AfterInit(st), port) == 0
  {
  }

  // ---------------------------------------------------------------------
  // The chipset's static state

  class Chipset {
    var reg426: bv8
    var unused424: bv8
    var romSelect: bv8
    var romEnable: bv8
    var turbo: bv8
    var highEnable: bv8
    /** `grid_ems_page[4]`. */
    const emsPage: array<bv8>
    /** Whether `grid_ems_mapping[i]` and `grid_high_mapping` are enabled. */
    ghost var emsMapped: seq<bool>
    ghost var highMapped: bool
    /** Main memory and its size in KiB (`mem_size`). */
    const ram: array<bv8>
    const memSize: nat

    /** `mem_size << 10`: the bound every memory handler checks. */
    function Limit(): nat
    {
      memSize * 1024
    }

    /** Four page registers, distinct from memory; memory holds the bound and
        the one byte past it that a 16-bit access at the last byte reaches;
        the bound fits in 32 bits. */
    ghost predicate Valid()
      reads this
    {
      && emsPage.Length == 4 && |emsMapped| == 4 && ram != emsPage
      && Limit() < ram.Length && Limit() < AddrModulus
    }

    ghost function State(): ChipState
      reads this, emsPage
    {
      ChipState(reg426, unused424, romSelect, romEnable, turbo, highEnable, emsPage[..], emsMapped, highMapped)
    }

    /** The static initialisers: every register 0 except turbo (1), no
        mapping set up yet. */
    constructor (ram: array<bv8>, memSize: nat)
      requires memSize * 1024 < ram.Length && memSize * 1024 < AddrModulus
      ensures Valid() && this.ram == ram && this.memSize == memSize
      ensures State() == ChipState(0, 0, 0, 0, 1, 0, [0, 0, 0, 0], [false, false, false, false], false)
    {
      reg426, unused424, romSelect, romEnable := 0, 0, 0, 0;
      turbo, highEnable := 1, 0;
      emsPage := new bv8[4](_ => 0);
      emsMapped := [false, false, false, false];
      highMapped := false;
      this.ram := ram;
      this.memSize := memSize;
    }

    /** `grid_init`: reset the page registers and unmap every EMS window,
        disable high memory while mapping the high window, turbo on. */
    method Init()
      requires Valid()
      modifies this, emsPage
      ensures Valid()
      ensures State() == AfterInit(old(State()))
    {
      turbo := 1;
      highEnable := 0;
      var slot := 0;
      while slot < 4
        invariant 0 <= slot <= 4 && |emsMapped| == 4
        invariant forall i :: 0 <= i < slot ==> emsPage[i] == 0 && !emsMapped[i]
        invariant turbo == 1 && highEnable == 0 && highMapped == old(highMapped)
        invariant reg426 == old(reg426) && unused424 == old(unused424)
        invariant romSelect == old(romSelect) && romEnable == old(romEnable)
      {
        emsPage[slot] := 0;
        emsMapped := emsMapped[slot := false];
        slot := slot + 1;
      }
      highMapped := true;
      assert emsPage[..] == [0, 0, 0, 0];
      assert emsMapped == [false, false, false, false];
    }

    /** `grid_ems_update_mapping(slot)`: map the slot's window exactly when
        its page has bit 7 set. */
    method UpdateEmsMapping(slot: nat)
      requires Valid() && slot < 4
      modifies this
      ensures Valid()
      ensures emsMapped == old(emsMapped)[slot := PageMapped(emsPage[slot])]
      ensures State() == old(State()).(emsMapped := old(emsMapped)[slot := PageMapped(emsPage[slot])])
    {
      emsMapped := emsMapped[slot := PageMapped(emsPage[slot])];
    }

    /** `grid_io_write(port, val)`. */
    method IoWrite(port: nat, val: bv8)
      requires Valid() && port < PortModulus
      modifies this, emsPage
      ensures Valid()
      ensures State() == AfterIoWrite(old(State()), port, val)
    {
      match DecodePort(port) {
        case Reg426 => reg426 := val;
        case RegUnused424 => unused424 := val;
        case RomSubsystem(_) =>
        case RomSelect => romSelect := val;
        case RomEnable => romEnable := val;
        case Turbo => turbo := val;
        case EmsPage(slot) => WritePage(slot, val);
        case HighEnable => WriteHighEnable(val);
        case NoRegister =>
      }
    }

    /** The page-register case of `grid_io_write`. */
    method WritePage(slot: nat, val: bv8)
      requires Valid() && slot < 4
      modifies this, emsPage
      ensures Valid()
      ensures State() == AfterPageWrite(old(State()), slot, val)
    {
      if emsPage[slot] == val {
        return;
      }
      emsPage[slot] := val;
      assert emsPage[..] == old(emsPage[..])[slot := val];
      if HighEnabled(highEnable) {
        return;
      }
      UpdateEmsMapping(slot);
    }

    /** The high-enable case of `grid_io_write`. */
    method WriteHighEnable(val: bv8)
      requires Valid()
      modifies this
      ensures Valid()
      ensures State() == AfterHighEnableWrite(old(State()), val)
    {
      if (val ^ highEnable) & 1 == 0 {
        return;
      }
      highEnable := val;
      if HighEnabled(highEnable) {
        var i := 0;
        while i < 4
          invariant 0 <= i <= 4 && Valid()
          invariant highEnable == val && highMapped == old(highMapped)
          invariant reg426 == old(reg426) && unused424 == old(unused424) && turbo == old(turbo)
          invariant romSelect == old(romSelect) && romEnable == old(romEnable)
          invariant forall j :: 0 <= j < i ==> !emsMapped[j]
        {
          emsMapped := emsMapped[i := false];
          i := i + 1;
        }
        highMapped := true;
        assert emsMapped == [false, false, false, false];
      } else {
        highMapped := false;
        var i := 0;
        while i < 4
          invariant 0 <= i <= 4 && Valid()
          invariant highEnable == val && !highMapped
          invariant reg426 == old(reg426) && unused424 == old(unused424) && turbo == old(turbo)
          invariant romSelect == old(romSelect) && romEnable == old(romEnable)
          invariant forall j :: 0 <= j < i ==> emsMapped[j] == PageMapped(emsPage[j])
        {
          UpdateEmsMapping(i);
          i := i + 1;
        }
        ghost var pages := emsPage[..];
        assert emsMapped == seq(4, j requires 0 <= j < 4 => PageMapped(pages[j]));
      }
    }

    /** `grid_io_read(port)`. */
    method IoRead(port: nat) returns (v: bv8)
      requires Valid() && port < PortModulus
      ensures v == IoReadValue(State(), port)
    {
      match DecodePort(port) {
        case Reg426 => v := reg426;
        case RegUnused424 => v := unused424;
        case RomSubsystem(k) => v := if k == 0 then 0x99 else 0xFF;
        case RomSelect => v := romSelect;
        case RomEnable => v := romEnable;
        case Turbo => v := turbo;
        case EmsPage(slot) => v := emsPage[slot];
        case HighEnable => v := highEnable;
        case NoRegister => v := 0xFF;
      }
    }

    /** `grid_ems_mem_read8`. */
    method EmsRead8(addr: nat) returns (v: bv8)
      requires Valid() && addr < AddrModulus
      ensures v == Load8(ram[..], Limit(), EmsPaddr(emsPage[..], addr))
    {
      var p := EmsPaddr(emsPage[..], addr);
      v := 0xFF;
      if p < Limit() {
        v := ram[p];
      }
    }

    /** `grid_ems_mem_read16`. */
    method EmsRead16(addr: nat) returns (v: bv16)
      requires Valid() && addr < AddrModulus
      ensures v == Load16(ram[..], Limit(), EmsPaddr(emsPage[..], addr))
    {
      var p := EmsPaddr(emsPage[..], addr);
      v := 0xFFFF;
      if p < Limit() {
        v := (ram[p] as bv16) | ((ram[p + 1] as bv16) << 8);
      }
    }

    /** `grid_ems_mem_write8`. */
    method EmsWrite8(addr: nat, val: bv8)
      requires Valid() && addr < AddrModulus
      modifies ram
      ensures ram[..] == Store8(old(ram[..]), Limit(), EmsPaddr(emsPage[..], addr), val)
    {
      var p := EmsPaddr(emsPage[..], addr);
      if p < Limit() {
        ram[p] := val;
      }
    }

    /** `grid_ems_mem_write16`. */
    method EmsWrite16(addr: nat, val: bv16)
      requires Valid() && addr < AddrModulus
      modifies ram
      ensures ram[..] == Store16(old(ram[..]), Limit(), EmsPaddr(emsPage[..], addr), val)
    {
      var p := EmsPaddr(emsPage[..], addr);
      if p < Limit() {
        ram[p] := (val & 0xFF) as bv8;
        ram[p + 1] := (val >> 8) as bv8;
      }
    }

    /** `grid_high_mem_read8`. */
    method HighRead8(addr: nat) returns (v: bv8)
      requires Valid() && addr < AddrModulus
      ensures v == Load8(ram[..], Limit(), HighPaddr(addr))
    {
      var p := HighPaddr(addr);
      v := 0xFF;
      if p < Limit() {
        v := ram[p];
      }
    }

    /** `grid_high_mem_read16`. */
    method HighRead16(addr: nat) returns (v: bv16)
      requires Valid() && addr < AddrModulus
      ensures v == Load16(ram[..], Limit(), HighPaddr(addr))
    {
      var p := HighPaddr(addr);
      v := 0xFFFF;
      if p < Limit() {
        v := (ram[p] as bv16) | ((ram[p + 1] as bv16) << 8);
      }
    }

    /** `grid_high_mem_write8`. */
    method HighWrite8(addr: nat, val: bv8)
      requires Valid() && addr < AddrModulus
      modifies ram
      ensures ram[..] == Store8(old(ram[..]), Limit(), HighPaddr(addr), val)
    {
      var p := HighPaddr(addr);
      if p < Limit() {
        ram[p] := val;
      }
    }

    /** `grid_high_mem_write16`. */
    method HighWrite16(addr: nat, val: bv16)
      requires Valid() && addr < AddrModulus
      modifies ram
      ensures ram[..] == Store16(old(ram[..]), Limit(), HighPaddr(addr), val)
    {
      var p := HighPaddr(addr);
      if p < Limit() {
        ram[p] := (val & 0xFF) as bv8;
        ram[p + 1] := (val >> 8) as bv8;
      }
    }
  }
}
