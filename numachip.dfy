/** The NumaChip config-space accessors of arch/x86/pci/numachip.c: the ECAM
    accessors with an extra bus-0 device limit, so that the AMD northbridges
    do not decode accesses to devices beyond the HyperTransport fabric, and the
    init routine that computes the limit and installs the accessors. */
module NumaChip {
  import opened Kernel
  import opened EcamRegion
  import opened Ecam

  /** PCI_DEVFN(slot, func): the slot masked to 5 bits in bits 7:3, the
      function masked to 3 bits in bits 2:0. */
  function PciDevfn(slot: nat, func: nat): (devfn: nat)
    ensures devfn < 0x100
  {
    (slot % 32) * 8 + func % 8
  }

  /** Bits 6:4 of register 0x60 of device 0x18: the HyperTransport fabric
      size, one less than the number of northbridges. */
  function FabricSize(val: u32): nat
  {
    (val / 16) % 8
  }

  /** The bus-0 filter: accesses to devices at or past the limit are dropped. */
  predicate Filtered(limit: nat, bus: nat, devfn: nat)
  {
    bus == 0 && devfn >= limit
  }

  /** The limit as written: PCI_DEVFN(0x18 + size + 1, 0) stored in a u8. */
  function NumachipLimitAsWritten(val: u32): u8
  {
    U8(PciDevfn(0x18 + FabricSize(val) + 1, 0))
  }

  /** With a full fabric (size 7) the slot 0x20 is masked to 0 and the limit
      is 0, so every device on bus 0 is blocked, including the northbridge
      0x18 whose register was just read. */
  lemma FullFabricLimitBlocksBusZero(val: u32)
    requires FabricSize(val) == 7
    ensures NumachipLimitAsWritten(val) == 0
    ensures forall devfn: nat :: devfn < 0x100 ==> Filtered(NumachipLimitAsWritten(val), 0, devfn)
    ensures Filtered(NumachipLimitAsWritten(val), 0, PciDevfn(0x18, 0))
  {
  }

  /** The intended limit: the devfn just past the last northbridge, without
      masking or narrowing (256 for a full fabric). */
  function NumachipLimit(val: u32): (limit: nat)
    ensures forall devfn :: 0 <= devfn < 0x100 ==>
              (devfn < limit <==> devfn / 8 <= 0x18 + FabricSize(val))
    ensures FabricSize(val) < 7 ==> limit == NumachipLimitAsWritten(val)
  {
    (0x18 + FabricSize(val) + 1) * 8
  }

  /** Which accessors raw_pci_ops / raw_pci_ext_ops point to. */
  datatype PciOps = NumachipOps | OtherOps(id: nat)

  /** pci_mmcfg_read_numachip: the ECAM range check first, then the bus-0
      filter (success with all ones), then the ECAM read. */
  function NumachipReadOutcome(rs: seq<Region>, limit: nat, seg: nat, bus: nat, devfn: nat, reg: int,
                               len: int, mmio: (int, u64) -> u32): (Status, u32)
  {
    if !AccessInRange(bus, devfn, reg) then (Failure(EINVAL), ALL_ONES_32)
    else if Filtered(limit, bus, devfn) then (Success, ALL_ONES_32)
    else ReadOutcome(rs, seg, bus, devfn, reg, len, mmio)
  }

  /** pci_mmcfg_write_numachip: the same, a filtered write succeeds without writing. */
  function NumachipWriteOutcome(rs: seq<Region>, limit: nat, seg: nat, bus: nat, devfn: nat, reg: int,
                                len: int, value: u32): (Status, Option<MmioWrite>)
  {
    if !AccessInRange(bus, devfn, reg) then (Failure(EINVAL), None)
    else if Filtered(limit, bus, devfn) then (Success, None)
    else WriteOutcome(rs, seg, bus, devfn, reg, len, value)
  }

  /** The NumaChip accessors differ from the generic ECAM ones exactly on
      in-range bus-0 accesses at or past the limit. */
  lemma NumachipMatchesEcamOutsideFilter(rs: seq<Region>, limit: nat, seg: nat, bus: nat, devfn: nat,
                                         reg: int, len: int, mmio: (int, u64) -> u32, value: u32)
    ensures !(AccessInRange(bus, devfn, reg) && Filtered(limit, bus, devfn)) ==>
              NumachipReadOutcome(rs, limit, seg, bus, devfn, reg, len, mmio)
                == ReadOutcome(rs, seg, bus, devfn, reg, len, mmio)
              && NumachipWriteOutcome(rs, limit, seg, bus, devfn, reg, len, value)
                 == WriteOutcome(rs, seg, bus, devfn, reg, len, value)
    ensures AccessInRange(bus, devfn, reg) && Filtered(limit, bus, devfn) ==>
              NumachipReadOutcome(rs, limit, seg, bus, devfn, reg, len, mmio) == (Success, ALL_ONES_32)
              && NumachipWriteOutcome(rs, limit, seg, bus, devfn, reg, len, value) == (Success, None)
  {
  }

  /** An in-range read served by a mapped region reads the device base plus
      the register offset. */
  lemma MappedReadOutcome(rs: seq<Region>, seg: nat, bus: nat, devfn: nat, reg: int, len: int,
                          mmio: (int, u64) -> u32, base: u64)
    requires AccessInRange(bus, devfn, reg) && DevBaseOf(rs, seg, bus, devfn) == Some(base)
    ensures ReadOutcome(rs, seg, bus, devfn, reg, len, mmio) == (Success, mmio(len, U64(base + reg)))
  {
  }

  /** The driver's globals: the u8 `limit` and the two accessor pointers. */
  class NumaChipPci {
    var limit: u8
    var rawPciOps: PciOps
    var rawPciExtOps: PciOps

    constructor (ops: PciOps, extOps: PciOps)
      ensures limit == 0 && rawPciOps == ops && rawPciExtOps == extOps
    {
      limit := 0;
      rawPciOps := ops;
      rawPciExtOps := extOps;
    }

    method Read(list: EcamList, seg: nat, bus: nat, devfn: nat, reg: int, len: int, mmio: (int, u64) -> u32)
      returns (s: Status, value: u32)
      ensures (s, value) == NumachipReadOutcome(list.regions, limit, seg, bus, devfn, reg, len, mmio)
    {
      if bus > 255 || devfn > 255 || reg > 4095 {
        s, value := Failure(EINVAL), ALL_ONES_32;
      } else if bus == 0 && devfn >= limit {
        s, value := Success, ALL_ONES_32;
      } else {
        var addr := list.DevBase(seg, bus, devfn);
        if addr.None? {
          s, value := Failure(EINVAL), ALL_ONES_32;
        } else {
          s, value := Success, mmio(len, U64(addr.value + reg));
          MappedReadOutcome(list.regions, seg, bus, devfn, reg, len, mmio, addr.value);
        }
        assert (s, value) == ReadOutcome(list.regions, seg, bus, devfn, reg, len, mmio);
      }
    }

    method Write(list: EcamList, seg: nat, bus: nat, devfn: nat, reg: int, len: int, value: u32)
      returns (s: Status, access: Option<MmioWrite>)
      ensures (s, access) == NumachipWriteOutcome(list.regions, limit, seg, bus, devfn, reg, len, value)
    {
      if bus > 255 || devfn > 255 || reg > 4095 {
        return Failure(EINVAL), None;
      }
      if bus == 0 && devfn >= limit {
        return Success, None;
      }
      var addr := list.DevBase(seg, bus, devfn);
      if addr.None? {
        return Failure(EINVAL), None;
      }
      return Success, Some(MmioWrite(len, U64(addr.value + reg), value));
    }

    /** pci_numachip_init. `readStatus` and `val` are the outcome of the
        raw_pci_read of register 0x60 of device 0x18 on bus 0. On failure the
        error is returned and nothing changes; on success the u8 limit is
        stored as written (0 for a full fabric, see
        FullFabricLimitBlocksBusZero; NumachipLimit is the intended value). */
    method Init(readStatus: Status, val: u32) returns (s: Status)
      modifies this
      ensures s == readStatus
      ensures readStatus.Failure? ==>
                limit == old(limit) && rawPciOps == old(rawPciOps) && rawPciExtOps == old(rawPciExtOps)
      ensures readStatus.Success? ==>
                limit == NumachipLimitAsWritten(val) && rawPciOps == NumachipOps && rawPciExtOps == NumachipOps
    {
      if readStatus.Failure? {
        return readStatus;
      }
      limit := NumachipLimitAsWritten(val);
      rawPciOps := NumachipOps;
      rawPciExtOps := NumachipOps;
      return Success;
    }
  }
}
