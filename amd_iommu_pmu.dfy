/** The AMD IOMMU performance-counter PMU of arch/x86/events/amd/iommu.c:
    the bank/counter allocator over a 64-bit assignment mask, the decoding of
    the event's config words, the match registers written when an event is
    enabled, the 48-bit counter delta, and the start/stop/add/del state flags. */
module AmdIommuPmu {
  import opened Kernel

  // ---------------------------------------------------------------------
  // Bank/counter slots in cntr_assign_mask

  /** The bit index the driver uses for (bank, cntr): bank + bank*3 + cntr,
      four bits per bank. */
  function Slot(bank: nat, cntr: nat): nat
  {
    bank + bank * 3 + cntr
  }

  /** The bit 1ULL << shift sets. A shift of 64 or more is undefined in C;
      the model takes what x86's SHL does, the count taken modulo 64. */
  function BitOf(shift: nat): nat
  {
    shift % 64
  }

  /** cntr_assign_mask is modelled as the set of its set bits (each < 64):
      `mask & (1ULL << s)` is membership of BitOf(s), `|=` adds it and
      `&= ~` removes it. */
  predicate Taken(mask: set<nat>, bank: nat, cntr: nat)
  {
    BitOf(Slot(bank, cntr)) in mask
  }

  /** (b1, c1) comes strictly before (b2, c2) in the allocator's scan order:
      banks in order, counters in order inside a bank. */
  predicate Before(b1: nat, c1: nat, b2: nat, c2: nat)
  {
    b1 < b2 || (b1 == b2 && c1 < c2)
  }

  /** The first free (bank, cntr) at or after (bank, cntr) in scan order. */
  function FirstFreeFrom(mask: set<nat>, maxBanks: nat, maxCntrs: nat, bank: nat, cntr: nat): (p: Option<(nat, nat)>)
    requires cntr <= maxCntrs
    ensures p.Some? ==>
              p.value.0 < maxBanks && p.value.1 < maxCntrs && !Taken(mask, p.value.0, p.value.1)
              && !Before(p.value.0, p.value.1, bank, cntr)
              && (forall b: nat, c: nat ::
                    (b < maxBanks && c < maxCntrs && !Before(b, c, bank, cntr) && Before(b, c, p.value.0, p.value.1))
                    ==> Taken(mask, b, c))
    ensures p.None? ==>
              forall b: nat, c: nat :: b < maxBanks && c < maxCntrs && !Before(b, c, bank, cntr) ==> Taken(mask, b, c)
    decreases maxBanks - bank, maxCntrs - cntr
  {
    if bank >= maxBanks then None
    else if cntr == maxCntrs then FirstFreeFrom(mask, maxBanks, maxCntrs, bank + 1, 0)
    else if !Taken(mask, bank, cntr) then Some((bank, cntr))
    else FirstFreeFrom(mask, maxBanks, maxCntrs, bank, cntr + 1)
  }

  /** The slot get_next_avail_iommu_bnk_cntr hands out, if any. */
  function FirstFree(mask: set<nat>, maxBanks: nat, maxCntrs: nat): Option<(nat, nat)>
  {
    FirstFreeFrom(mask, maxBanks, maxCntrs, 0, 0)
  }

  /** The allocator's return value for (bank, cntr): (u16)(bank << 8) | (u8)cntr,
      the bank in byte 1 and the counter in byte 0. */
  function SlotCode(bank: nat, cntr: nat): int
  {
    U16(U16(bank) * 256) + U8(cntr)
  }

  /** _GET_BANK: byte 1 of extra_reg.reg. */
  function GetBank(reg: u32): u8
  {
    U8(reg / 256)
  }

  /** _GET_CNTR: byte 0 of extra_reg.reg. */
  function GetCntr(reg: u32): u8
  {
    U8(reg)
  }

  /** The code of a slot inside the u8 bank/counter ranges decodes back to it. */
  lemma SlotCodeRoundTrip(bank: nat, cntr: nat)
    requires bank < 0x100 && cntr < 0x100
    ensures 0 <= SlotCode(bank, cntr) < 0x10000
    ensures GetBank(U16(SlotCode(bank, cntr))) == bank && GetCntr(U16(SlotCode(bank, cntr))) == cntr
  {
    NarrowInRange(bank);
    NarrowInRange(cntr);
    NarrowInRange(bank * 256);
    var code := bank * 256 + cntr;
    assert SlotCode(bank, cntr) == code;
    NarrowInRange(code);
    assert code / 256 == bank && code % 256 == cntr;
  }

  /** Four counters per bank, sixteen banks: distinct slots use distinct bits. */
  lemma SlotBitsDistinct(b1: nat, c1: nat, b2: nat, c2: nat)
    requires b1 < 16 && b2 < 16 && c1 < 4 && c2 < 4
    requires BitOf(Slot(b1, c1)) == BitOf(Slot(b2, c2))
    ensures b1 == b2 && c1 == c2
  {
    SlotDecode(b1, c1);
    SlotDecode(b2, c2);
    SmallBit(Slot(b1, c1));
    SmallBit(Slot(b2, c2));
  }

  lemma SlotDecode(b: nat, c: nat)
    requires c < 4
    ensures Slot(b, c) / 4 == b && Slot(b, c) % 4 == c
  {
  }

  lemma SmallBit(s: nat)
    requires s < 64
    ensures BitOf(s) == s
  {
  }

  /** With more than four counters per bank the numbering is not one-to-one:
      counter 4 of bank 0 and counter 0 of bank 1 share bit 4. With bank 0
      full, counter 0 of bank 1 looks taken and is skipped. */
  lemma FifthCounterSharesNextBanksBit()
    ensures Slot(0, 4) == Slot(1, 0)
    ensures FirstFree({0, 1, 2, 3, 4}, 2, 5) == Some((1, 1))
  {
    var m := {0, 1, 2, 3, 4};
    assert !Taken(m, 1, 1) by { assert BitOf(Slot(1, 1)) == 5; }
    forall b: nat, c: nat | b < 2 && c < 5 && Before(b, c, 1, 1)
      ensures Taken(m, b, c)
    {
      assert Slot(b, c) == 4 * b + c;
      assert 4 * b + c <= 4;
    }
    FirstFreeIs(m, 2, 5, 1, 1);
  }

  /** The converse of FirstFree's characterisation: a free slot with every
      slot before it taken is the one the allocator picks. */
  lemma FirstFreeIs(mask: set<nat>, maxBanks: nat, maxCntrs: nat, bank: nat, cntr: nat)
    requires bank < maxBanks && cntr < maxCntrs && !Taken(mask, bank, cntr)
    requires forall b: nat, c: nat :: (b < maxBanks && c < maxCntrs && Before(b, c, bank, cntr)) ==> Taken(mask, b, c)
    ensures FirstFree(mask, maxBanks, maxCntrs) == Some((bank, cntr))
  {
    var p := FirstFree(mask, maxBanks, maxCntrs);
    assert p.Some? by {
      if p.None? {
        assert false;
      }
    }
    assert !Before(p.value.0, p.value.1, bank, cntr) by {
      if Before(p.value.0, p.value.1, bank, cntr) {
        assert false;
      }
    }
  }

  /** Clearing the slot just allocated gives back the mask it was allocated
      from, and clear accepts that slot's decoded bank and counter. */
  lemma ClearUndoesAlloc(mask: set<nat>, maxBanks: u8, maxCntrs: u8)
    requires FirstFree(mask, maxBanks, maxCntrs).Some?
    ensures var p := FirstFree(mask, maxBanks, maxCntrs).value;
            var code := U16(SlotCode(p.0, p.1));
            GetBank(code) <= maxBanks && GetCntr(code) <= maxCntrs
            && GetBank(code) == p.0 && GetCntr(code) == p.1
            && (mask + {BitOf(Slot(p.0, p.1))}) - {BitOf(Slot(GetBank(code), GetCntr(code)))} == mask
  {
    var p := FirstFree(mask, maxBanks, maxCntrs).value;
    SlotCodeRoundTrip(p.0, p.1);
    assert BitOf(Slot(p.0, p.1)) !in mask;
  }

  /** The IOMMU-wide state of the PMU (struct perf_amd_iommu), without its
      registration and sysfs parts. */
  class PerfAmdIommu {
    const idx: nat
    const maxBanks: u8
    const maxCounters: u8
    var cntrAssignMask: set<nat>

    constructor (idx: nat, maxBanks: u8, maxCounters: u8)
      ensures this.idx == idx && this.maxBanks == maxBanks && this.maxCounters == maxCounters
      ensures cntrAssignMask == {}
    {
      this.idx := idx;
      this.maxBanks := maxBanks;
      this.maxCounters := maxCounters;
      cntrAssignMask := {};
    }

    /** get_next_avail_iommu_bnk_cntr: sets the bit of the first free slot in
        scan order and returns its code, or -ENOSPC leaving the mask alone. */
    method GetNextAvailBnkCntr() returns (r: int)
      modifies this
      ensures FirstFree(old(cntrAssignMask), maxBanks, maxCounters).None? ==>
                r == -Code(ENOSPC) && cntrAssignMask == old(cntrAssignMask)
      ensures FirstFree(old(cntrAssignMask), maxBanks, maxCounters).Some? ==>
                var p := FirstFree(old(cntrAssignMask), maxBanks, maxCounters).value;
                r == SlotCode(p.0, p.1) && cntrAssignMask == old(cntrAssignMask) + {BitOf(Slot(p.0, p.1))}
    {
      var bank: nat := 0;
      while bank < maxBanks as nat
        invariant bank <= maxBanks
        invariant cntrAssignMask == old(cntrAssignMask)
        invariant FirstFreeFrom(cntrAssignMask, maxBanks, maxCounters, bank, 0)
                  == FirstFree(cntrAssignMask, maxBanks, maxCounters)
      {
        var cntr: nat := 0;
        while cntr < maxCounters as nat
          invariant cntr <= maxCounters
          invariant cntrAssignMask == old(cntrAssignMask)
          invariant FirstFreeFrom(cntrAssignMask, maxBanks, maxCounters, bank, cntr)
                    == FirstFree(cntrAssignMask, maxBanks, maxCounters)
        {
          var shift := bank + bank * 3 + cntr;
          if BitOf(shift) !in cntrAssignMask {
            cntrAssignMask := cntrAssignMask + {BitOf(shift)};
            // the bank byte and the counter byte do not overlap: `|` is `+`
            return U16(U16(bank) * 256) + U8(cntr);
          }
          cntr := cntr + 1;
        }
        bank := bank + 1;
      }
      return -Code(ENOSPC);
    }

    /** clear_avail_iommu_bnk_cntr: rejects only bank > max_banks or
        cntr > max_counters, otherwise clears that slot's bit. */
    method ClearAvailBnkCntr(bank: u8, cntr: u8) returns (r: int)
      modifies this
      ensures bank > maxBanks || cntr > maxCounters ==>
                r == -Code(EINVAL) && cntrAssignMask == old(cntrAssignMask)
      ensures bank <= maxBanks && cntr <= maxCounters ==>
                r == 0 && cntrAssignMask == old(cntrAssignMask) - {BitOf(Slot(bank, cntr))}
    {
      if bank > maxBanks || cntr > maxCounters {
        return -Code(EINVAL);
      }
      var shift := bank + cntr + bank * 3;
      cntrAssignMask := cntrAssignMask - {BitOf(shift)};
      return 0;
    }
  }

  // ---------------------------------------------------------------------
  // Config decoding (the sysfs format: config:0-7 csource, 8-23 devid,
  // 24-39 pasid, 40-55 domid; config1:0-15, 16-31, 32-47 the three masks)

  function Csource(config: bv64): bv64 { config & 0xFF }
  function Devid(config: bv64): bv64 { (config >> 8) & 0xFFFF }
  function Pasid(config: bv64): bv64 { (config >> 24) & 0xFFFF }
  function Domid(config: bv64): bv64 { (config >> 40) & 0xFFFF }
  function DevidMask(config1: bv64): bv64 { config1 & 0xFFFF }
  function PasidMask(config1: bv64): bv64 { (config1 >> 16) & 0xFFFF }
  function DomidMask(config1: bv64): bv64 { (config1 >> 32) & 0xFFFF }

  /** The config word a user writes for the four fields. */
  function EncodeConfig(csource: bv8, devid: bv16, pasid: bv16, domid: bv16): bv64
  {
    (csource as bv64) | ((devid as bv64) << 8) | ((pasid as bv64) << 24) | ((domid as bv64) << 40)
  }

  /** The config1 word a user writes for the three masks. */
  function EncodeConfig1(devidMask: bv16, pasidMask: bv16, domidMask: bv16): bv64
  {
    (devidMask as bv64) | ((pasidMask as bv64) << 16) | ((domidMask as bv64) << 32)
  }

  /** Each field decodes to what was encoded. */
  lemma ConfigRoundTrip(csource: bv8, devid: bv16, pasid: bv16, domid: bv16)
    ensures var c := EncodeConfig(csource, devid, pasid, domid);
            Csource(c) == csource as bv64 && Devid(c) == devid as bv64
            && Pasid(c) == pasid as bv64 && Domid(c) == domid as bv64
  {
  }

  /** The four fields hold exactly bits 0-55 of config: re-encoding the
      decoded fields gives config with bits 56-63 cleared. */
  lemma ConfigFieldsCoverBits0To55(config: bv64)
    ensures EncodeConfig(Csource(config) as bv8, Devid(config) as bv16, Pasid(config) as bv16, Domid(config) as bv16)
            == config & 0x00FF_FFFF_FFFF_FFFF
  {
  }

  lemma Config1RoundTrip(devidMask: bv16, pasidMask: bv16, domidMask: bv16)
    ensures var c := EncodeConfig1(devidMask, pasidMask, domidMask);
            DevidMask(c) == devidMask as bv64 && PasidMask(c) == pasidMask as bv64
            && DomidMask(c) == domidMask as bv64
  {
  }

  /** The three masks hold exactly bits 0-47 of config1. */
  lemma Config1FieldsCoverBits0To47(config1: bv64)
    ensures EncodeConfig1(DevidMask(config1) as bv16, PasidMask(config1) as bv16, DomidMask(config1) as bv16)
            == config1 & 0xFFFF_FFFF_FFFF
  {
  }

  // ---------------------------------------------------------------------
  // Match registers (perf_iommu_enable_event)

  /** value | (mask << 32), with bit 31 (the enable bit) set when that is nonzero. */
  function MatchReg(value: bv64, mask: bv64): bv64
  {
    var reg := value | (mask << 32);
    if reg != 0 then reg | (1 << 31) else reg
  }

  /** For 16-bit value and mask: the value is in bits 0-15, the mask in bits
      32-47, bit 31 is set exactly when either is nonzero, and nothing else
      is set. */
  lemma MatchRegLayout(value: bv64, mask: bv64)
    requires value <= 0xFFFF && mask <= 0xFFFF
    ensures MatchReg(value, mask) & 0xFFFF == value
    ensures (MatchReg(value, mask) >> 32) & 0xFFFF == mask
    ensures (MatchReg(value, mask) >> 31) & 1 == 1 <==> value != 0 || mask != 0
    ensures MatchReg(value, mask) & 0xFFFF_0000_7FFF_0000 == 0
  {
  }

  /** The IOMMU performance-counter register indexes. */
  const IOMMU_PC_COUNTER_SRC_REG: u8 := 0x08
  const IOMMU_PC_PASID_MATCH_REG: u8 := 0x10
  const IOMMU_PC_DOMID_MATCH_REG: u8 := 0x18
  const IOMMU_PC_DEVID_MATCH_REG: u8 := 0x20

  /** A call to amd_iommu_pc_set_reg or amd_iommu_pc_set_counter. */
  datatype PcWrite =
    | SetReg(idx: nat, devid: bv64, bank: u8, cntr: u8, fxn: u8, value: bv64)
    | SetCounter(idx: nat, bank: u8, cntr: u8, count: u64)

  /** The four register writes of perf_iommu_enable_event, in order. */
  function EnableEventWrites(idx: nat, config: bv64, config1: bv64, reg: u32): (ws: seq<PcWrite>)
    ensures |ws| == 4
    ensures forall k :: 0 <= k < 4 ==>
              (ws[k].SetReg? && ws[k].idx == idx
               && ws[k].devid == Devid(config) && ws[k].bank == GetBank(reg) && ws[k].cntr == GetCntr(reg))
    ensures ws[0].fxn == IOMMU_PC_COUNTER_SRC_REG && ws[0].value == Csource(config)
    ensures ws[1].fxn == IOMMU_PC_DEVID_MATCH_REG && ws[2].fxn == IOMMU_PC_PASID_MATCH_REG
            && ws[3].fxn == IOMMU_PC_DOMID_MATCH_REG
  {
    var devid := Devid(config);
    var bank := GetBank(reg);
    var cntr := GetCntr(reg);
    [SetReg(idx, devid, bank, cntr, IOMMU_PC_COUNTER_SRC_REG, Csource(config)),
     SetReg(idx, devid, bank, cntr, IOMMU_PC_DEVID_MATCH_REG, MatchReg(devid, DevidMask(config1))),
     SetReg(idx, devid, bank, cntr, IOMMU_PC_PASID_MATCH_REG, MatchReg(Pasid(config), PasidMask(config1))),
     SetReg(idx, devid, bank, cntr, IOMMU_PC_DOMID_MATCH_REG, MatchReg(Domid(config), DomidMask(config1)))]
  }

  /** The device-id match register enable_event writes has the layout of
      MatchRegLayout for the event's devid and devid mask. */
  lemma EnableEventDevidMatch(idx: nat, config: bv64, config1: bv64, reg: u32)
    ensures var w := EnableEventWrites(idx, config, config1, reg)[1];
            w.value & 0xFFFF == Devid(config) && (w.value >> 32) & 0xFFFF == DevidMask(config1)
            && ((w.value >> 31) & 1 == 1 <==> Devid(config) != 0 || DevidMask(config1) != 0)
  {
    var v := MatchReg(Devid(config), DevidMask(config1));
    MatchRegLayout(Devid(config), DevidMask(config1));
    assert EnableEventWrites(idx, config, config1, reg)[1].value == v;
  }

  /** The same for the PASID match register. */
  lemma EnableEventPasidMatch(idx: nat, config: bv64, config1: bv64, reg: u32)
    ensures var w := EnableEventWrites(idx, config, config1, reg)[2];
            w.value & 0xFFFF == Pasid(config) && (w.value >> 32) & 0xFFFF == PasidMask(config1)
            && ((w.value >> 31) & 1 == 1 <==> Pasid(config) != 0 || PasidMask(config1) != 0)
  {
    var v := MatchReg(Pasid(config), PasidMask(config1));
    MatchRegLayout(Pasid(config), PasidMask(config1));
    assert EnableEventWrites(idx, config, config1, reg)[2].value == v;
  }

  /** The same for the domain-id match register. */
  lemma EnableEventDomidMatch(idx: nat, config: bv64, config1: bv64, reg: u32)
    ensures var w := EnableEventWrites(idx, config, config1, reg)[3];
            w.value & 0xFFFF == Domid(config) && (w.value >> 32) & 0xFFFF == DomidMask(config1)
            && ((w.value >> 31) & 1 == 1 <==> Domid(config) != 0 || DomidMask(config1) != 0)
  {
    var v := MatchReg(Domid(config), DomidMask(config1));
    MatchRegLayout(Domid(config), DomidMask(config1));
    assert EnableEventWrites(idx, config, config1, reg)[3].value == v;
  }

  // ---------------------------------------------------------------------
  // The 48-bit counter delta (perf_iommu_read)

  /** 2^48: the counter register has 48 bits. */
  const P48: int := 0x1_0000_0000_0000
  /** 2^47: half the counter range. */
  const P47: int := 0x8000_0000_0000
  /** 1 << COUNTER_SHIFT. */
  const SHIFT_FACTOR: int := 0x1_0000

  /** cnt & GENMASK_ULL(48, 0) as written: bits 0 to 48, 49 bits. */
  function CounterValueAsWritten(cnt: u64): u64
  {
    cnt % 0x2_0000_0000_0000
  }

  /** cnt & GENMASK_ULL(47, 0): the 48 bits the counter register has. */
  function CounterValue(cnt: u64): (v: u64)
    ensures v < P48 && (cnt < P48 ==> v == cnt)
  {
    cnt % P48
  }

  /** A u64 read as an s64 (two's complement). */
  function Signed64(d: u64): int
  {
    if d >= 0x8000_0000_0000_0000 then d - U64_MODULUS else d
  }

  /** ((cnt << 16) - (prev << 16)) in 64 bits, read as s64, then >>= 16: an
      arithmetic shift, which is floor division by 2^16. */
  function Delta(cnt: u64, prev: u64): int
  {
    Signed64(U64(U64(cnt * SHIFT_FACTOR) - U64(prev * SHIFT_FACTOR))) / SHIFT_FACTOR
  }

  /** The reference meaning of the delta: the difference of the low 48 bits,
      brought into [-2^47, 2^47). */
  function Centered48(x: int): (c: int)
    requires -P48 < x < P48
    ensures -P47 <= c < P47 && (c == x || c == x - P48 || c == x + P48)
  {
    if x >= P47 then x - P48 else if x < -P47 then x + P48 else x
  }

  /** Shifting left by 16 in 64 bits keeps exactly the low 48 bits. */
  lemma ShiftLeft16(v: u64)
    ensures U64(v * SHIFT_FACTOR) == (v % P48) * SHIFT_FACTOR
  {
    var q := v / P48;
    var low := v % P48;
    assert v == q * P48 + low;
    assert v * SHIFT_FACTOR == low * SHIFT_FACTOR + q * U64_MODULUS;
    U64Shift(low * SHIFT_FACTOR, q);
    U64InRange(low * SHIFT_FACTOR);
  }

  /** perf_iommu_read's delta is the 48-bit difference of the counter
      values, centred: the overflow handling the shifts are there for. */
  lemma DeltaIsCentered48BitDifference(cnt: u64, prev: u64)
    ensures Delta(cnt, prev) == Centered48(cnt % P48 - prev % P48)
  {
    var x := cnt % P48 - prev % P48;
    ShiftLeft16(cnt);
    ShiftLeft16(prev);
    var d := U64(U64(cnt * SHIFT_FACTOR) - U64(prev * SHIFT_FACTOR));
    assert d == U64(x * SHIFT_FACTOR);
    if x >= 0 {
      U64InRange(x * SHIFT_FACTOR);
      if x >= P47 {
        assert Signed64(d) == (x - P48) * SHIFT_FACTOR;
      } else {
        assert Signed64(d) == x * SHIFT_FACTOR;
      }
    } else {
      U64Shift(x * SHIFT_FACTOR, 1);
      U64InRange(x * SHIFT_FACTOR + U64_MODULUS);
      assert d == x * SHIFT_FACTOR + U64_MODULUS;
      if x < -P47 {
        assert Signed64(d) == (x + P48) * SHIFT_FACTOR;
      } else {
        assert Signed64(d) == x * SHIFT_FACTOR;
      }
    }
  }

  /** Adding the delta to the previous value gives the new counter value in
      the low 48 bits, and the delta is less than 2^47 either way. */
  lemma DeltaRecoversCounter(cnt: u64, prev: u64)
    ensures -P47 <= Delta(cnt, prev) < P47
    ensures (prev % P48 + Delta(cnt, prev)) % P48 == cnt % P48
  {
    DeltaIsCentered48BitDifference(cnt, prev);
    var c := cnt % P48;
    var s := prev % P48 + Delta(cnt, prev);
    assert s == c || s == c - P48 || s == c + P48;
    if s == c - P48 {
      assert s + P48 == c;
    }
  }

  /** A counter that moved forward by less than 2^47 without wrapping adds
      exactly the distance it moved. */
  lemma DeltaOfForwardCount(cnt: u64, prev: u64)
    requires prev <= cnt < P48 && cnt - prev < P47
    ensures Delta(cnt, prev) == cnt - prev
  {
    DeltaIsCentered48BitDifference(cnt, prev);
    ModUnique(cnt, 0, cnt);
    ModUnique(prev, 0, prev);
  }

  /** A counter that wrapped past 2^48 adds the distance it moved across the
      wrap, not a negative amount. */
  lemma DeltaOfWrappedCount(cnt: u64, prev: u64)
    requires cnt < prev < P48 && cnt + P48 - prev < P47
    ensures Delta(cnt, prev) == cnt + P48 - prev
  {
    DeltaIsCentered48BitDifference(cnt, prev);
    ModUnique(cnt, 0, cnt);
    ModUnique(prev, 0, prev);
  }

  /** As written the mask keeps bit 48: a counter read of 2^48 is stored in
      prev_count as 2^48 although the counter has only 48 bits, where the
      48-bit mask stores 0. */
  lemma CounterMaskAsWrittenKeepsBit48()
    ensures CounterValueAsWritten(P48) == P48 >= P48
    ensures CounterValue(P48) == 0
  {
  }

  /** The extra bit never reaches the event count: the delta is the same
      under both masks. It only reaches prev_count, which start writes back
      to the counter on reload. */
  lemma CounterMaskAsWrittenSameDelta(cnt: u64, prev: u64)
    ensures Delta(CounterValueAsWritten(cnt), prev) == Delta(CounterValue(cnt), prev)
  {
    var r := CounterValueAsWritten(cnt);
    var q := cnt / 0x2_0000_0000_0000;
    assert cnt == q * 0x2_0000_0000_0000 + r;
    var a := r / P48;
    var b := r % P48;
    assert r == a * P48 + b;
    ModUnique(cnt, 2 * q + a, b);
    ModUnique(CounterValue(cnt), 0, CounterValue(cnt));
    DeltaIsCentered48BitDifference(r, prev);
    DeltaIsCentered48BitDifference(CounterValue(cnt), prev);
  }

  /** The remainder modulo 2^48 of a value written as a * 2^48 + b. */
  lemma ModUnique(x: int, a: int, b: int)
    requires 0 <= b < P48 && x == a * P48 + b
    ensures x % P48 == b
  {
  }

  // ---------------------------------------------------------------------
  // Event init and the event's state

  /** The hw.state bits: PERF_HES_STOPPED and PERF_HES_UPTODATE. The state
      word is modelled as the set of its bits. */
  datatype HesFlag = HesStopped | HesUptodate

  /** The flags argument of start/stop/add/del: PERF_EF_START, PERF_EF_RELOAD
      and PERF_EF_UPDATE, as the set of the bits given. */
  datatype EfFlag = EfStart | EfReload | EfUpdate

  /** The parts of perf_event_attr and perf_event that event_init checks.
      `samplePeriod != 0` is is_sampling_event, `attachTask` the
      PERF_ATTACH_TASK bit of attach_state. */
  datatype EventAttr = EventAttr(attrType: nat, samplePeriod: nat, attachTask: bool,
                                 excludeUser: bool, excludeKernel: bool, excludeHost: bool, excludeGuest: bool,
                                 cpu: int, config: bv64, config1: bv64)

  predicate Unsupported(a: EventAttr)
  {
    a.samplePeriod != 0 || a.attachTask || a.excludeUser || a.excludeKernel || a.excludeHost
    || a.excludeGuest || a.cpu < 0
  }

  /** perf_iommu_event_init's verdict: -ENOENT for another PMU's event type,
      -EINVAL for a sampling or per-task event, any exclude bit or no CPU. */
  function EventInitStatus(a: EventAttr, pmuType: nat): (s: Status)
    ensures s == Failure(ENOENT) <==> a.attrType != pmuType
    ensures s == Failure(EINVAL) <==> a.attrType == pmuType && Unsupported(a)
    ensures s == Success <==> a.attrType == pmuType && !Unsupported(a)
  {
    if a.attrType != pmuType then Failure(ENOENT)
    else if a.samplePeriod != 0 || a.attachTask then Failure(EINVAL)
    else if a.excludeUser || a.excludeKernel || a.excludeHost || a.excludeGuest then Failure(EINVAL)
    else if a.cpu < 0 then Failure(EINVAL)
    else Success
  }

  /** An event's hw_perf_event: the state bits, the counts, the copied
      config, the allocated slot code (extra_reg.reg), plus the log of the
      counter-register writes made for it. */
  class IommuEvent {
    var state: set<HesFlag>
    var prevCount: u64
    var count: u64
    var idx: nat
    var config: bv64
    var config1: bv64
    var reg: u32
    var writes: seq<PcWrite>

    constructor ()
      ensures state == {} && prevCount == 0 && count == 0 && writes == []
    {
      state := {};
      prevCount := 0;
      count := 0;
      idx := 0;
      config := 0;
      config1 := 0;
      reg := 0;
      writes := [];
    }

    /** perf_iommu_event_init: on success copies the PMU's index and the
        event's config words; on failure changes nothing. */
    method EventInit(a: EventAttr, pmuType: nat, pmuIdx: nat) returns (s: Status)
      modifies this
      ensures s == EventInitStatus(a, pmuType)
      ensures s.Success? ==> idx == pmuIdx && config == a.config && config1 == a.config1
      ensures s.Failure? ==> idx == old(idx) && config == old(config) && config1 == old(config1)
      ensures state == old(state) && prevCount == old(prevCount) && count == old(count)
      ensures reg == old(reg) && writes == old(writes)
    {
      if a.attrType != pmuType {
        return Failure(ENOENT);
      }
      if a.samplePeriod != 0 || a.attachTask {
        return Failure(EINVAL);
      }
      if a.excludeUser || a.excludeKernel || a.excludeHost || a.excludeGuest {
        return Failure(EINVAL);
      }
      if a.cpu < 0 {
        return Failure(EINVAL);
      }
      idx := pmuIdx;
      config := a.config;
      config1 := a.config1;
      return Success;
    }

    /** perf_iommu_read with the mask as written (GENMASK_ULL(48, 0)).
        `counter` is what amd_iommu_pc_get_counter returns, None when it
        fails. prev_count keeps bit 48, but the count still grows by the
        48-bit delta of the intended mask. The count is a 64-bit atomic and
        wraps. */
    method Read(counter: Option<u64>)
      modifies this
      ensures counter.None? ==> prevCount == old(prevCount) && count == old(count)
      ensures counter.Some? ==>
                prevCount == CounterValueAsWritten(counter.value)
                && count == U64(old(count) + Delta(CounterValue(counter.value), old(prevCount)))
      ensures state == old(state) && writes == old(writes) && reg == old(reg)
      ensures idx == old(idx) && config == old(config) && config1 == old(config1)
    {
      if counter.None? {
        return;
      }
      var cnt := CounterValueAsWritten(counter.value);
      var prev := prevCount;
      CounterMaskAsWrittenSameDelta(counter.value, prev);
      prevCount := cnt;
      count := U64(count + Delta(cnt, prev));
    }

    /** perf_iommu_stop: an up-to-date event is left alone; otherwise the
        counter source is zeroed, the event marked stopped, read, and marked
        up to date. */
    method Stop(flags: set<EfFlag>, counter: Option<u64>)
      modifies this
      ensures HesUptodate in old(state) ==>
                state == old(state) && writes == old(writes)
                && prevCount == old(prevCount) && count == old(count)
      ensures HesUptodate !in old(state) ==>
                state == old(state) + {HesStopped, HesUptodate}
                && writes == old(writes) + [SetReg(idx, Devid(config), GetBank(reg), GetCntr(reg),
                                                   IOMMU_PC_COUNTER_SRC_REG, 0)]
                && (counter.None? ==> prevCount == old(prevCount) && count == old(count))
                && (counter.Some? ==>
                      prevCount == CounterValueAsWritten(counter.value)
                      && count == U64(old(count) + Delta(CounterValue(counter.value), old(prevCount))))
      ensures HesUptodate in state
      ensures reg == old(reg) && idx == old(idx) && config == old(config) && config1 == old(config1)
    {
      if HesUptodate in state {
        return;
      }
      // perf_iommu_disable_event
      writes := writes + [SetReg(idx, Devid(config), GetBank(reg), GetCntr(reg), IOMMU_PC_COUNTER_SRC_REG, 0)];
      state := state + {HesStopped};
      if HesUptodate in state {
        return;
      }
      Read(counter);
      state := state + {HesUptodate};
    }

    /** perf_iommu_start: only a stopped event starts; its state is cleared,
        with PERF_EF_RELOAD prev_count is written back to the counter, then
        the event's registers are programmed. */
    method Start(flags: set<EfFlag>)
      modifies this
      ensures HesStopped !in old(state) ==> state == old(state) && writes == old(writes)
      ensures HesStopped in old(state) ==>
                state == {}
                && writes == old(writes)
                   + (if EfReload in flags then [SetCounter(idx, GetBank(reg), GetCntr(reg), prevCount)] else [])
                   + EnableEventWrites(idx, config, config1, reg)
      ensures prevCount == old(prevCount) && count == old(count) && reg == old(reg)
      ensures idx == old(idx) && config == old(config) && config1 == old(config1)
    {
      if HesStopped !in state {
        return;
      }
      state := {};
      var reload := if EfReload in flags then [SetCounter(idx, GetBank(reg), GetCntr(reg), prevCount)] else [];
      writes := writes + reload + EnableEventWrites(idx, config, config1, reg);
    }

    /** perf_iommu_add: the event starts stopped and up to date, takes a
        bank/counter (or fails with -ENOSPC), and is started with reload
        when PERF_EF_START is given. */
    method Add(pmu: PerfAmdIommu, flags: set<EfFlag>) returns (r: int)
      modifies this, pmu
      ensures FirstFree(old(pmu.cntrAssignMask), pmu.maxBanks, pmu.maxCounters).None? ==>
                r == -Code(ENOSPC) && pmu.cntrAssignMask == old(pmu.cntrAssignMask)
                && state == {HesUptodate, HesStopped} && reg == old(reg) && writes == old(writes)
      ensures FirstFree(old(pmu.cntrAssignMask), pmu.maxBanks, pmu.maxCounters).Some? ==>
                var p := FirstFree(old(pmu.cntrAssignMask), pmu.maxBanks, pmu.maxCounters).value;
                r == 0 && pmu.cntrAssignMask == old(pmu.cntrAssignMask) + {BitOf(Slot(p.0, p.1))}
                && GetBank(reg) == p.0 && GetCntr(reg) == p.1
                && (EfStart !in flags ==> state == {HesUptodate, HesStopped} && writes == old(writes))
                && (EfStart in flags ==>
                      state == {}
                      && writes == old(writes) + [SetCounter(idx, p.0, p.1, prevCount)]
                                   + EnableEventWrites(idx, config, config1, reg))
      ensures prevCount == old(prevCount) && count == old(count)
      ensures idx == old(idx) && config == old(config) && config1 == old(config1)
    {
      state := {HesUptodate, HesStopped};
      var retval := pmu.GetNextAvailBnkCntr();
      if retval != -Code(ENOSPC) {
        ghost var p := FirstFree(old(pmu.cntrAssignMask), pmu.maxBanks, pmu.maxCounters).value;
        SlotCodeRoundTrip(p.0, p.1);
        reg := U16(retval);
      } else {
        return retval;
      }
      if EfStart in flags {
        Start({EfReload});
      }
      return 0;
    }

    /** perf_iommu_del: stop with update, then release the event's slot. */
    method Del(pmu: PerfAmdIommu, flags: set<EfFlag>, counter: Option<u64>)
      modifies this, pmu
      ensures HesUptodate in old(state) ==>
                state == old(state) && writes == old(writes)
                && prevCount == old(prevCount) && count == old(count)
      ensures HesUptodate !in old(state) ==>
                state == old(state) + {HesStopped, HesUptodate}
                && writes == old(writes) + [SetReg(idx, Devid(config), GetBank(reg), GetCntr(reg),
                                                   IOMMU_PC_COUNTER_SRC_REG, 0)]
                && (counter.None? ==> prevCount == old(prevCount) && count == old(count))
                && (counter.Some? ==>
                      prevCount == CounterValueAsWritten(counter.value)
                      && count == U64(old(count) + Delta(CounterValue(counter.value), old(prevCount))))
      ensures HesUptodate in state
      ensures reg == old(reg) && idx == old(idx) && config == old(config) && config1 == old(config1)
      ensures GetBank(reg) <= pmu.maxBanks && GetCntr(reg) <= pmu.maxCounters ==>
                pmu.cntrAssignMask == old(pmu.cntrAssignMask) - {BitOf(Slot(GetBank(reg), GetCntr(reg)))}
      ensures !(GetBank(reg) <= pmu.maxBanks && GetCntr(reg) <= pmu.maxCounters) ==>
                pmu.cntrAssignMask == old(pmu.cntrAssignMask)
    {
      Stop({EfUpdate}, counter);
      var _ := pmu.ClearAvailBnkCntr(GetBank(reg), GetCntr(reg));
    }
  }

  /** An event added without PERF_EF_START and then deleted hands its slot
      back: the IOMMU's mask is the one before the add. */
  method AddThenDel(pmu: PerfAmdIommu, ev: IommuEvent, counter: Option<u64>) returns (r: int)
    requires FirstFree(pmu.cntrAssignMask, pmu.maxBanks, pmu.maxCounters).Some?
    modifies pmu, ev
    ensures r == 0 && pmu.cntrAssignMask == old(pmu.cntrAssignMask)
  {
    ClearUndoesAlloc(pmu.cntrAssignMask, pmu.maxBanks, pmu.maxCounters);
    r := ev.Add(pmu, {});
    ev.Del(pmu, {EfUpdate}, counter);
  }
}
