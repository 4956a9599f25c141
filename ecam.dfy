/** The PCI ECAM/MMCONFIG region list of drivers/pci/ecam.c: regions kept
    sorted by (segment, start bus), lookup of the region covering a bus,
    delete, conflict-checked inject, allocation of a region record, the
    config-space accessors and the per-region mapping with its start-bus bias.

    The list holds region values; the source's list of pointers to heap
    records has no aliasing the code relies on. ioremap results and MMIO
    reads are inputs, MMIO writes are outputs. */
module Ecam {
  import opened Kernel
  import opened EcamRegion

  // ---------------------------------------------------------------------
  // Sorted insertion (list_add_sorted)

  /** The list order: by segment, then by start bus. */
  predicate KeyLe(a: Region, b: Region)
  {
    a.segment < b.segment || (a.segment == b.segment && a.startBus <= b.startBus)
  }

  predicate Sorted(rs: seq<Region>)
  {
    forall i, j :: 0 <= i < j < |rs| ==> KeyLe(rs[i], rs[j])
  }

  /** The new region goes in front of `cfg`: cfg has a greater segment, or the
      same segment and a start bus that is not smaller. */
  predicate InsertsBefore(r: Region, cfg: Region)
  {
    cfg.segment > r.segment || (cfg.segment == r.segment && cfg.startBus >= r.startBus)
  }

  function InsertPos(rs: seq<Region>, r: Region, i: nat): (k: nat)
    requires i <= |rs|
    ensures i <= k <= |rs|
    ensures forall j :: i <= j < k ==> !InsertsBefore(r, rs[j])
    ensures k < |rs| ==> InsertsBefore(r, rs[k])
    decreases |rs| - i
  {
    if i == |rs| then |rs|
    else if InsertsBefore(r, rs[i]) then i
    else InsertPos(rs, r, i + 1)
  }

  /** The list after list_add_sorted: the new region before the first region
      it inserts before, at the tail if there is none. */
  function InsertSorted(rs: seq<Region>, r: Region): seq<Region>
  {
    var k := InsertPos(rs, r, 0);
    rs[..k] + [r] + rs[k..]
  }

  /** Sorted insertion keeps the list sorted and adds exactly the new region. */
  lemma InsertSortedKeepsOrder(rs: seq<Region>, r: Region)
    requires Sorted(rs)
    ensures Sorted(InsertSorted(rs, r))
    ensures multiset(InsertSorted(rs, r)) == multiset(rs) + multiset{r}
  {
    var k := InsertPos(rs, r, 0);
    var out := InsertSorted(rs, r);
    assert |out| == |rs| + 1;
    forall i, j | 0 <= i < j < |out| ensures KeyLe(out[i], out[j]) {
      if j < k {
        assert out[i] == rs[i] && out[j] == rs[j];
      } else if j == k {
        assert out[j] == r && out[i] == rs[i];
        assert !InsertsBefore(r, rs[i]);
      } else if i < k {
        assert out[i] == rs[i] && out[j] == rs[j - 1];
        assert !InsertsBefore(r, rs[i]);
        assert InsertsBefore(r, rs[k]);
        assert k == j - 1 || KeyLe(rs[k], rs[j - 1]);
      } else if i == k {
        assert out[i] == r && out[j] == rs[j - 1];
        assert InsertsBefore(r, rs[k]);
        assert k == j - 1 || KeyLe(rs[k], rs[j - 1]);
      } else {
        assert out[i] == rs[i - 1] && out[j] == rs[j - 1];
      }
    }
    assert rs == rs[..k] + rs[k..];
  }

  // ---------------------------------------------------------------------
  // Lookup (pci_mmconfig_lookup) and exact match (pci_mmconfig_delete)

  /** The region serves (segment, bus). */
  predicate Covers(r: Region, seg: int, bus: int)
  {
    r.segment == seg && r.startBus <= bus <= r.endBus
  }

  function LookupFrom(rs: seq<Region>, seg: int, bus: int, i: nat): (k: Option<nat>)
    requires i <= |rs|
    ensures k.Some? ==> i <= k.value < |rs| && Covers(rs[k.value], seg, bus)
                        && forall j :: i <= j < k.value ==> !Covers(rs[j], seg, bus)
    ensures k.None? ==> forall j :: i <= j < |rs| ==> !Covers(rs[j], seg, bus)
    decreases |rs| - i
  {
    if i == |rs| then None
    else if Covers(rs[i], seg, bus) then Some(i)
    else LookupFrom(rs, seg, bus, i + 1)
  }

  /** Position of the first region in list order covering (seg, bus). */
  function LookupIndex(rs: seq<Region>, seg: int, bus: int): Option<nat>
  {
    LookupFrom(rs, seg, bus, 0)
  }

  predicate ExactMatch(r: Region, seg: u16, start: u8, end: u8)
  {
    r.segment == seg && r.startBus == start && r.endBus == end
  }

  function ExactFrom(rs: seq<Region>, seg: u16, start: u8, end: u8, i: nat): (k: Option<nat>)
    requires i <= |rs|
    ensures k.Some? ==> i <= k.value < |rs| && ExactMatch(rs[k.value], seg, start, end)
                        && forall j :: i <= j < k.value ==> !ExactMatch(rs[j], seg, start, end)
    ensures k.None? ==> forall j :: i <= j < |rs| ==> !ExactMatch(rs[j], seg, start, end)
    decreases |rs| - i
  {
    if i == |rs| then None
    else if ExactMatch(rs[i], seg, start, end) then Some(i)
    else ExactFrom(rs, seg, start, end, i + 1)
  }

  /** Position of the first region exactly matching (seg, start, end). */
  function ExactIndex(rs: seq<Region>, seg: u16, start: u8, end: u8): Option<nat>
  {
    ExactFrom(rs, seg, start, end, 0)
  }

  /** Removing one region keeps a sorted list sorted. */
  lemma RemoveKeepsOrder(rs: seq<Region>, k: nat)
    requires Sorted(rs) && k < |rs|
    ensures Sorted(rs[..k] + rs[k + 1..])
  {
    var out := rs[..k] + rs[k + 1..];
    forall i, j | 0 <= i < j < |out| ensures KeyLe(out[i], out[j]) {
      var i' := if i < k then i else i + 1;
      var j' := if j < k then j else j + 1;
      assert out[i] == rs[i'] && out[j] == rs[j'];
    }
  }

  /** Deleting by the key of a region just inserted removes that region, and
      only it, when no region already had that exact key. */
  lemma InsertThenDeleteRestores(rs: seq<Region>, r: Region)
    requires ExactIndex(rs, r.segment, r.startBus, r.endBus).None?
    ensures ExactIndex(InsertSorted(rs, r), r.segment, r.startBus, r.endBus) == Some(InsertPos(rs, r, 0))
    ensures var k := InsertPos(rs, r, 0);
            InsertSorted(rs, r)[..k] + InsertSorted(rs, r)[k + 1..] == rs
  {
    var k := InsertPos(rs, r, 0);
    var out := InsertSorted(rs, r);
    assert out[k] == r;
    assert forall j :: 0 <= j < k ==> out[j] == rs[j];
    var e := ExactIndex(out, r.segment, r.startBus, r.endBus);
    assert e.Some? && e.value <= k;
    assert out[..k] == rs[..k] && out[k + 1..] == rs[k..];
    assert rs == rs[..k] + rs[k..];
  }

  // ---------------------------------------------------------------------
  // Mapping (mcfg_ioremap, pci_mmcfg_arch_map/unmap)

  /** The value mcfg_ioremap returns for an ioremap result `io` of the
      region's bus range: NULL stays NULL, any other address is lowered by the
      start bus's window so that adding BusOffset(bus) for the region's first
      bus lands on the mapped start. A biased value of 0 reads as NULL to
      the caller. */
  function Biased(io: u64, startBus: u8): u64
  {
    if io == 0 then 0 else U64(io - BusOffset(startBus))
  }

  /** The address pci_mmcfg_arch_unmap hands to iounmap, if the region is mapped. */
  function UnmapAddress(r: Region): Option<u64>
  {
    if Mapped(r) then Some(U64(r.virt + BusOffset(r.startBus))) else None
  }

  /** Unmapping hands back exactly the address ioremap returned. */
  lemma UnmapUndoesBias(r: Region, io: u64)
    requires Biased(io, r.startBus) != 0
    ensures UnmapAddress(r.(virt := Biased(io, r.startBus))) == Some(io)
  {
  }

  // ---------------------------------------------------------------------
  // Config-space addressing (pci_dev_base) and the accessors

  /** PCI_MMCFG_BUS_OFFSET(bus) | (devfn << 12). After the accessors' range
      checks devfn << 12 is below 1 << 20, so the `|` is an addition. */
  function EcamOffset(bus: nat, devfn: nat): nat
  {
    BusOffset(bus) + devfn * 0x1000
  }

  /** The ECAM layout: an in-range (bus, devfn, reg) offset decodes back to
      bus, device/function and register. */
  lemma EcamOffsetDecode(bus: nat, devfn: nat, reg: nat)
    requires devfn < 0x100 && reg < 0x1000
    ensures (EcamOffset(bus, devfn) + reg) / 0x10_0000 == bus
    ensures (EcamOffset(bus, devfn) + reg) % 0x10_0000 / 0x1000 == devfn
    ensures (EcamOffset(bus, devfn) + reg) % 0x1000 == reg
  {
    var x := EcamOffset(bus, devfn) + reg;
    var low := devfn * 0x1000 + reg;
    assert x == BusOffset(bus) + low;
    BusWindowDecode(bus, low);
    PageDecode(low, devfn, reg);
    assert x == (bus * 0x100 + devfn) * 0x1000 + reg;
    PageDecode(x, bus * 0x100 + devfn, reg);
  }

  /** Division by the 4 KiB function window is unique. */
  lemma PageDecode(x: int, q: int, r: int)
    requires 0 <= r < 0x1000 && x == q * 0x1000 + r
    ensures x / 0x1000 == q && x % 0x1000 == r
  {
  }

  /** pci_dev_base: the first region covering (seg, bus) must be mapped. */
  function DevBaseOf(rs: seq<Region>, seg: int, bus: nat, devfn: nat): Option<u64>
  {
    match LookupIndex(rs, seg, bus)
    case None => None
    case Some(k) => if !Mapped(rs[k]) then None else Some(U64(rs[k].virt + EcamOffset(bus, devfn)))
  }

  /** With the biased base, every access to a covered bus lands at the
      ioremap start plus the bus's window relative to the region's first bus. */
  lemma AccessLandsInMapping(io: u64, startBus: u8, bus: nat, devfn: nat, reg: int)
    requires io != 0 && startBus <= bus
    ensures U64(U64(Biased(io, startBus) + EcamOffset(bus, devfn)) + reg)
            == U64(io + EcamOffset(bus - startBus, devfn) + reg)
  {
    var low := io - BusOffset(startBus);
    assert low + EcamOffset(bus, devfn) == io + EcamOffset(bus - startBus, devfn);
    U64AddTwice(low, Biased(io, startBus), EcamOffset(bus, devfn), reg, io + EcamOffset(bus - startBus, devfn));
  }

  /** The accessors' range check. `reg` is a signed int and is only bounded above. */
  predicate AccessInRange(bus: nat, devfn: nat, reg: int)
  {
    bus <= 255 && devfn <= 255 && reg <= 4095
  }

  /** One MMIO write the accessor performs: access width, address and value. */
  datatype MmioWrite = MmioWrite(len: int, addr: u64, value: u32)

  /** What pci_mmcfg_read returns and stores in *value, given the MMIO read
      function `mmio(len, addr)`. */
  function ReadOutcome(rs: seq<Region>, seg: nat, bus: nat, devfn: nat, reg: int, len: int,
                       mmio: (int, u64) -> u32): (Status, u32)
  {
    if !AccessInRange(bus, devfn, reg) then (Failure(EINVAL), ALL_ONES_32)
    else match DevBaseOf(rs, seg, bus, devfn)
      case None => (Failure(EINVAL), ALL_ONES_32)
      case Some(base) => (Success, mmio(len, U64(base + reg)))
  }

  /** What pci_mmcfg_write returns and the MMIO write it performs, if any. */
  function WriteOutcome(rs: seq<Region>, seg: nat, bus: nat, devfn: nat, reg: int, len: int,
                        value: u32): (Status, Option<MmioWrite>)
  {
    if !AccessInRange(bus, devfn, reg) then (Failure(EINVAL), None)
    else match DevBaseOf(rs, seg, bus, devfn)
      case None => (Failure(EINVAL), None)
      case Some(base) => (Success, Some(MmioWrite(len, U64(base + reg), value)))
  }

  /** An in-range write served by a mapped region writes once, with the
      given width and value, at the device base plus the register offset.
      With AccessLandsInMapping, that address is the ioremap start plus the
      bus's window relative to the region's first bus. */
  lemma MappedWriteOutcome(rs: seq<Region>, seg: nat, bus: nat, devfn: nat, reg: int,
                           len: int, value: u32, base: u64)
    requires AccessInRange(bus, devfn, reg) && DevBaseOf(rs, seg, bus, devfn) == Some(base)
    ensures WriteOutcome(rs, seg, bus, devfn, reg, len, value) == (Success, Some(MmioWrite(len, U64(base + reg), value)))
  {
  }

  // ---------------------------------------------------------------------
  // Region allocation (pci_mmconfig_alloc)

  /** The int shifts `start << 20` and `(end + 1) << 20` are defined. */
  predicate AllocArgsOk(start: int, end: int)
  {
    0 <= start < 0x800 && -1 <= end < 0x7FF
  }

  /** "PCI MMCONFIG %04x [bus %02x-%02x]" with the int arguments printed as unsigned. */
  function NameText(segment: int, start: int, end: int): string
  {
    "PCI MMCONFIG " + Hex(U32(segment), 4) + " [bus " + Hex(U32(start), 2) + "-" + Hex(U32(end), 2) + "]"
  }

  /** The name as snprintf leaves it in the region's buffer. */
  function ResourceName(segment: int, start: int, end: int): string
  {
    Truncate(NameText(segment, start, end), RESOURCE_NAME_LEN)
  }

  /** The buffer always holds the NUL; for a u16 segment and u8 buses the
      full 29-character name fits without truncation. */
  lemma ResourceNameFits(segment: int, start: int, end: int)
    ensures |ResourceName(segment, start, end)| < RESOURCE_NAME_LEN
    ensures 0 <= segment < 0x1_0000 && 0 <= start < 0x100 && 0 <= end < 0x100 ==>
              |NameText(segment, start, end)| == RESOURCE_NAME_LEN - 1
              && ResourceName(segment, start, end) == NameText(segment, start, end)
  {
    if 0 <= segment < 0x1_0000 && 0 <= start < 0x100 && 0 <= end < 0x100 {
      assert Pow16(2) == 0x100 && Pow16(4) == 0x1_0000;
      HexWidth(U32(segment), 4);
      HexWidth(U32(start), 2);
      HexWidth(U32(end), 2);
    }
  }

  /** The memory resource of the region: [addr + (start << 20), addr + ((end + 1) << 20) - 1]. */
  function RegionResource(start: nat, end: int, addr: u64): Resource
    requires end >= -1
  {
    Resource(U64(addr + BusOffset(start)), U64(addr + BusOffset(end + 1) - 1))
  }

  /** A NULL address or a failed allocation gives NULL; otherwise a fresh
      unmapped region with the arguments truncated to the field widths and the
      resource window computed from the untruncated bus numbers. */
  function Alloc(segment: int, start: int, end: int, addr: u64, allocOk: bool): (r: Option<Region>)
    requires AllocArgsOk(start, end)
    ensures r.None? <==> addr == 0 || !allocOk
  {
    if addr == 0 || !allocOk then None
    else Some(Region(addr, 0, U16(segment), U8(start), U8(end),
                     RegionResource(start, end, addr),
                     ResourceName(segment, start, end)))
  }

  /** The resource spans exactly the windows of buses start..end when the
      window does not wrap. */
  lemma ResourceSpansBuses(start: nat, end: int, addr: u64)
    requires start <= end && addr + BusOffset(end + 1) <= U64_MODULUS
    ensures var res := RegionResource(start, end, addr);
            res.start == addr + BusOffset(start)
            && res.end - res.start + 1 == BusOffset(end - start + 1)
            && forall bus: nat :: start <= bus <= end ==>
                 res.start <= addr + BusOffset(bus) && addr + BusOffset(bus) + 0xF_FFFF <= res.end
  {
    U64InRange(addr + BusOffset(start));
    U64InRange(addr + BusOffset(end + 1) - 1);
  }

  /** A region from a non-NULL address is unmapped, carries the resource
      of its bus range, and keeps in-range arguments; a segment beyond
      16 bits or a bus beyond 8 bits is silently truncated. */
  lemma AllocFields(segment: int, start: int, end: int, addr: u64)
    requires AllocArgsOk(start, end) && addr != 0
    ensures var r := Alloc(segment, start, end, addr, true).value;
            !Mapped(r) && r.address == addr && r.res == RegionResource(start, end, addr)
            && r.segment == U16(segment) && r.startBus == U8(start) && r.endBus == U8(end)
            && (0 <= segment < 0x1_0000 ==> r.segment == segment)
            && (start < 0x100 ==> r.startBus == start)
            && (0 <= end < 0x100 ==> r.endBus == end)
  {
    NarrowInRange(segment);
    NarrowInRange(start);
    NarrowInRange(end);
    var name := ResourceName(segment, start, end);
    assert Alloc(segment, start, end, addr, true).value
           == Region(addr, 0, U16(segment), U8(start), U8(end), RegionResource(start, end, addr), name);
  }

  // ---------------------------------------------------------------------
  // The global list and its operations

  /** pci_mmcfg_list. */
  class EcamList {
    var regions: seq<Region>

    constructor ()
      ensures regions == []
    {
      regions := [];
    }

    method ListAddSorted(r: Region)
      modifies this
      ensures regions == InsertSorted(old(regions), r)
    {
      var i := 0;
      while i < |regions|
        invariant 0 <= i <= |regions|
        invariant InsertPos(regions, r, i) == InsertPos(regions, r, 0)
      {
        if InsertsBefore(r, regions[i]) {
          regions := regions[..i] + [r] + regions[i..];
          return;
        }
        i := i + 1;
      }
      regions := regions + [r];
    }

    method Lookup(seg: int, bus: int) returns (k: Option<nat>)
      ensures k == LookupIndex(regions, seg, bus)
    {
      var i := 0;
      while i < |regions|
        invariant 0 <= i <= |regions|
        invariant LookupFrom(regions, seg, bus, i) == LookupIndex(regions, seg, bus)
      {
        if regions[i].segment == seg && regions[i].startBus <= bus && bus <= regions[i].endBus {
          return Some(i);
        }
        i := i + 1;
      }
      return None;
    }

    /** Removes the first exact match, or returns -ENOENT leaving the list alone. */
    method Delete(seg: u16, start: u8, end: u8) returns (s: Status)
      modifies this
      ensures match ExactIndex(old(regions), seg, start, end)
              case None => s == Failure(ENOENT) && regions == old(regions)
              case Some(k) => s == Success && regions == old(regions)[..k] + old(regions)[k + 1..]
    {
      var i := 0;
      while i < |regions|
        invariant 0 <= i <= |regions|
        invariant regions == old(regions)
        invariant ExactFrom(regions, seg, start, end, i) == ExactIndex(regions, seg, start, end)
      {
        if regions[i].segment == seg && regions[i].startBus == start && regions[i].endBus == end {
          regions := regions[..i] + regions[i + 1..];
          return Success;
        }
        i := i + 1;
      }
      return Failure(ENOENT);
    }

    /** Maps the region that is not yet on the list with the ioremap result
        `io` and returns it; a NULL (biased) base is -ENOMEM. */
    static method ArchMap(cfg: Region, io: u64) returns (s: Status, mapped: Region)
      ensures mapped == cfg.(virt := Biased(io, cfg.startBus))
      ensures s == (if Mapped(mapped) then Success else Failure(ENOMEM))
    {
      mapped := cfg.(virt := Biased(io, cfg.startBus));
      if mapped.virt == 0 {
        return Failure(ENOMEM), mapped;
      }
      return Success, mapped;
    }

    /** -EEXIST when a region already covers (segment, start bus), -ENOMEM when
        mapping fails, else the mapped region is inserted in order. */
    method Inject(cfg: Region, io: u64) returns (s: Status)
      modifies this
      ensures LookupIndex(old(regions), cfg.segment, cfg.startBus).Some? ==>
                s == Failure(EEXIST) && regions == old(regions)
      ensures LookupIndex(old(regions), cfg.segment, cfg.startBus).None? && Biased(io, cfg.startBus) == 0 ==>
                s == Failure(ENOMEM) && regions == old(regions)
      ensures LookupIndex(old(regions), cfg.segment, cfg.startBus).None? && Biased(io, cfg.startBus) != 0 ==>
                s == Success && regions == InsertSorted(old(regions), cfg.(virt := Biased(io, cfg.startBus)))
    {
      var conflict := Lookup(cfg.segment, cfg.startBus);
      if conflict.Some? {
        return Failure(EEXIST);
      }
      var mapped;
      s, mapped := ArchMap(cfg, io);
      if s.Failure? {
        return Failure(ENOMEM);
      }
      ListAddSorted(mapped);
    }

    /** pci_mmconfig_add: allocate, then insert unmapped without a conflict check. */
    method Add(segment: int, start: int, end: int, addr: u64, allocOk: bool) returns (r: Option<Region>)
      requires AllocArgsOk(start, end)
      modifies this
      ensures r == Alloc(segment, start, end, addr, allocOk)
      ensures r.Some? ==> regions == InsertSorted(old(regions), r.value)
      ensures r.None? ==> regions == old(regions)
    {
      r := Alloc(segment, start, end, addr, allocOk);
      if r.Some? {
        ListAddSorted(r.value);
      }
    }

    method DevBase(seg: nat, bus: nat, devfn: nat) returns (a: Option<u64>)
      ensures a == DevBaseOf(regions, seg, bus, devfn)
    {
      var k := Lookup(seg, bus);
      if k.Some? && regions[k.value].virt != 0 {
        return Some(U64(regions[k.value].virt + EcamOffset(bus, devfn)));
      }
      return None;
    }

    /** pci_mmcfg_read: -EINVAL and all ones for an out-of-range access or
        when no mapped region serves it, else the MMIO read. */
    method Read(seg: nat, bus: nat, devfn: nat, reg: int, len: int, mmio: (int, u64) -> u32)
      returns (s: Status, value: u32)
      ensures (s, value) == ReadOutcome(regions, seg, bus, devfn, reg, len, mmio)
      ensures s == Failure(EINVAL) <==> !AccessInRange(bus, devfn, reg) || DevBaseOf(regions, seg, bus, devfn).None?
      ensures s.Failure? ==> value == ALL_ONES_32
    {
      if bus > 255 || devfn > 255 || reg > 4095 {
        return Failure(EINVAL), ALL_ONES_32;
      }
      var addr := DevBase(seg, bus, devfn);
      if addr.None? {
        return Failure(EINVAL), ALL_ONES_32;
      }
      return Success, mmio(len, U64(addr.value + reg));
    }

    /** pci_mmcfg_write: the same checks; a write only on success. */
    method Write(seg: nat, bus: nat, devfn: nat, reg: int, len: int, value: u32)
      returns (s: Status, access: Option<MmioWrite>)
      ensures (s, access) == WriteOutcome(regions, seg, bus, devfn, reg, len, value)
      ensures access.Some? <==> s.Success?
    {
      if bus > 255 || devfn > 255 || reg > 4095 {
        return Failure(EINVAL), None;
      }
      assert AccessInRange(bus, devfn, reg);
      var addr := DevBase(seg, bus, devfn);
      if addr.None? {
        return Failure(EINVAL), None;
      }
      var w := MmioWrite(len, U64(addr.value + reg), value);
      assert WriteOutcome(regions, seg, bus, devfn, reg, len, value) == (Success, Some(w));
      return Success, Some(w);
    }

    /** pci_mmcfg_arch_unmap on the i-th region: clears `virt`, returning the
        address given to iounmap; nothing happens to an unmapped region. */
    method ArchUnmap(i: nat) returns (released: Option<u64>)
      requires i < |regions|
      modifies this
      ensures released == UnmapAddress(old(regions)[i])
      ensures regions == old(regions)[i := old(regions)[i].(virt := 0)]
    {
      released := UnmapAddress(regions[i]);
      if regions[i].virt != 0 {
        regions := regions[i := regions[i].(virt := 0)];
      }
    }

    /** pci_mmcfg_arch_free: every region ends unmapped, nothing else changes. */
    method ArchFree()
      modifies this
      ensures |regions| == |old(regions)|
      ensures forall i :: 0 <= i < |regions| ==> regions[i] == old(regions)[i].(virt := 0)
    {
      var i := 0;
      while i < |regions|
        invariant 0 <= i <= |regions| == |old(regions)|
        invariant forall j :: 0 <= j < i ==> regions[j] == old(regions)[j].(virt := 0)
        invariant forall j :: i <= j < |regions| ==> regions[j] == old(regions)[j]
      {
        var _ := ArchUnmap(i);
        i := i + 1;
      }
    }

    /** pci_mmcfg_arch_init, with `io(i)` the ioremap result for the i-th
        region: true (1) when every region maps, each biased by its start bus;
        false (0) after unmapping every region at the first failure. */
    method ArchInit(io: nat -> u64) returns (ok: bool)
      modifies this
      ensures |regions| == |old(regions)|
      ensures ok <==> forall i :: 0 <= i < |regions| ==> Biased(io(i), old(regions)[i].startBus) != 0
      ensures ok ==> forall i :: 0 <= i < |regions| ==>
                       regions[i] == old(regions)[i].(virt := Biased(io(i), old(regions)[i].startBus))
      ensures !ok ==> forall i :: 0 <= i < |regions| ==> regions[i] == old(regions)[i].(virt := 0)
    {
      var i := 0;
      while i < |regions|
        invariant 0 <= i <= |regions| == |old(regions)|
        invariant forall j :: 0 <= j < i ==> Biased(io(j), old(regions)[j].startBus) != 0
        invariant forall j :: 0 <= j < i ==> regions[j] == old(regions)[j].(virt := Biased(io(j), old(regions)[j].startBus))
        invariant forall j :: i <= j < |regions| ==> regions[j] == old(regions)[j]
      {
        var s, mapped := ArchMap(regions[i], io(i));
        regions := regions[i := mapped];
        if s.Failure? {
          ArchFree();
          return false;
        }
        i := i + 1;
      }
      return true;
    }

    /** free_all_mmcfg: unmap everything, then remove every region. */
    method FreeAll()
      modifies this
      ensures regions == []
    {
      ArchFree();
      regions := [];
    }
  }
}
