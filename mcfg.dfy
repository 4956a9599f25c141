/** The MCFG parser of drivers/acpi/mcfg.c (the MCFG table of section 4.1.2
    of the PCI Firmware Specification 3.0): count the allocation records after
    the table header, then add one ECAM region per record, all or nothing;
    the default config accessors; and the late-init control flow. */
module Mcfg {
  import opened Kernel
  import opened EcamRegion
  import opened Ecam

  /** sizeof(struct acpi_table_mcfg): the 36-byte ACPI header plus 8 reserved bytes. */
  const MCFG_HEADER_SIZE: nat := 44
  /** sizeof(struct acpi_mcfg_allocation). */
  const ALLOCATION_SIZE: nat := 16

  /** One configuration-space base address allocation record. */
  datatype McfgAllocation = McfgAllocation(address: u64, pciSegment: u16, startBus: u8, endBus: u8)

  /** The table's length field and the record decoded at each index after the header. */
  datatype McfgTable = McfgTable(length: u32, entryAt: nat -> McfgAllocation)

  /** The evidently intended record count: the whole records after the
      header, and none in a table shorter than its header. */
  function EntryCount(length: u32): (n: nat)
    ensures length < MCFG_HEADER_SIZE ==> n == 0
    ensures length >= MCFG_HEADER_SIZE ==>
              n * ALLOCATION_SIZE <= length - MCFG_HEADER_SIZE < (n + 1) * ALLOCATION_SIZE
  {
    if length < MCFG_HEADER_SIZE then 0 else (length - MCFG_HEADER_SIZE) / ALLOCATION_SIZE
  }

  /** The `int entries` the counting loop leaves, as written: the bytes after
      the header are computed in unsigned long, and the count wraps as a
      32-bit int. */
  function EntryCountAsWritten(length: u32): i32
  {
    I32(U64(length - MCFG_HEADER_SIZE) / ALLOCATION_SIZE)
  }

  /** For a table at least as long as its header the written count is the
      intended one. */
  lemma EntryCountAsWrittenAgrees(length: u32)
    requires length >= MCFG_HEADER_SIZE
    ensures EntryCountAsWritten(length) == EntryCount(length) == RecordCount(length)
  {
    U64InRange(length - MCFG_HEADER_SIZE);
    U64InRange(EntryCount(length));
  }

  /** For a table shorter than its header (length - 44 = -d, 1 <= d <= 44)
      the subtraction wraps to 2^64 - d, the loop counts 2^60 - ceil(d/16)
      records, the int count wraps to -ceil(d/16), and the record loop,
      comparing with that count converted to unsigned long, is bounded only
      by 2^64 - ceil(d/16): it reads records past the end of the table. */
  lemma ShortTableCountWraps(length: u32)
    requires length < MCFG_HEADER_SIZE
    ensures var c := (MCFG_HEADER_SIZE - length + ALLOCATION_SIZE - 1) / ALLOCATION_SIZE;
            1 <= c <= 3
            && EntryCountAsWritten(length) == -c
            && RecordCount(length) == U64_MODULUS - c > length
  {
    var d := MCFG_HEADER_SIZE - length;
    var c := (d + ALLOCATION_SIZE - 1) / ALLOCATION_SIZE;
    U64Shift(length - MCFG_HEADER_SIZE, 1);
    U64InRange(U64_MODULUS - d);
    var x := U64_MODULUS - d;
    assert U64(length - MCFG_HEADER_SIZE) == x;
    var q := 0x1000_0000_0000_0000 - c;
    assert q * ALLOCATION_SIZE <= x < (q + 1) * ALLOCATION_SIZE;
    assert x / ALLOCATION_SIZE == q;
    assert q == (0x1000_0000 - 1) * 0x1_0000_0000 + (0x1_0000_0000 - c);
    assert q % 0x1_0000_0000 == 0x1_0000_0000 - c;
    assert EntryCountAsWritten(length) == -c;
    U64Shift(-c, 1);
    U64InRange(U64_MODULUS - c);
  }

  /** The counting loop of acpi_parse_mcfg as written: repeated subtraction
      of the record size from the unsigned bytes after the header, with the
      int count wrapping. */
  method CountEntries(length: u32) returns (entries: i32)
    ensures entries == EntryCountAsWritten(length)
    ensures length >= MCFG_HEADER_SIZE ==>
              entries * ALLOCATION_SIZE <= length - MCFG_HEADER_SIZE < (entries + 1) * ALLOCATION_SIZE
    ensures length < MCFG_HEADER_SIZE ==> entries < 0
  {
    entries := 0;
    var i: u64 := U64(length - MCFG_HEADER_SIZE);
    ghost var k: nat := 0;
    while i >= ALLOCATION_SIZE
      invariant k * ALLOCATION_SIZE + i == U64(length - MCFG_HEADER_SIZE)
      invariant entries == I32(k)
    {
      I32Inc(k);
      entries := I32(entries + 1);
      i := i - ALLOCATION_SIZE;
      k := k + 1;
    }
    assert k == U64(length - MCFG_HEADER_SIZE) / ALLOCATION_SIZE;
    if length >= MCFG_HEADER_SIZE {
      EntryCountAsWrittenAgrees(length);
    } else {
      ShortTableCountWraps(length);
    }
  }

  /** How many records the parse loop visits: `i < entries` compares the
      unsigned long index with the int count converted to unsigned long. */
  function RecordCount(length: u32): nat
  {
    U64(EntryCountAsWritten(length))
  }

  /** The records the parse loop visits, in table order; for a table
      shorter than its header these run past the table's end. */
  function Entries(t: McfgTable): seq<McfgAllocation>
  {
    seq(RecordCount(t.length), i requires 0 <= i => t.entryAt(i))
  }

  /** The region pci_ecam_add builds for a record with a non-NULL address. */
  function EntryRegion(a: McfgAllocation): Region
    requires a.address != 0
  {
    Alloc(a.pciSegment, a.startBus, a.endBus, a.address, true).value
  }

  predicate AddressesSet(es: seq<McfgAllocation>)
  {
    forall k :: 0 <= k < |es| ==> es[k].address != 0
  }

  /** The list after adding the records in table order to an empty list. */
  function Built(es: seq<McfgAllocation>): seq<Region>
    requires AddressesSet(es)
  {
    if es == [] then [] else InsertSorted(Built(es[..|es| - 1]), EntryRegion(es[|es| - 1]))
  }

  lemma BuiltStep(es: seq<McfgAllocation>, i: nat)
    requires i < |es| && AddressesSet(es[..i]) && es[i].address != 0
    ensures AddressesSet(es[..i + 1])
    ensures Built(es[..i + 1]) == InsertSorted(Built(es[..i]), EntryRegion(es[i]))
  {
    assert es[..i + 1][..i] == es[..i];
  }

  /** The regions of the records, in table order. */
  function EntryRegions(es: seq<McfgAllocation>): seq<Region>
    requires AddressesSet(es)
  {
    if es == [] then [] else EntryRegions(es[..|es| - 1]) + [EntryRegion(es[|es| - 1])]
  }

  /** A parsed list is sorted by (segment, start bus) and holds exactly one
      region per record. */
  lemma {:induction false} BuiltIsSortedAndComplete(es: seq<McfgAllocation>)
    requires AddressesSet(es)
    ensures Sorted(Built(es))
    ensures multiset(Built(es)) == multiset(EntryRegions(es))
  {
    if es != [] {
      BuiltIsSortedAndComplete(es[..|es| - 1]);
      InsertSortedKeepsOrder(Built(es[..|es| - 1]), EntryRegion(es[|es| - 1]));
    }
  }

  /** Record k fails: acpi_mcfg_check_entry rejects it, or pci_ecam_add
      returns NULL (a NULL address, or the allocation fails). */
  predicate Fails(es: seq<McfgAllocation>, k: nat, checkFails: nat -> bool, allocOk: nat -> bool)
    requires k < |es|
  {
    checkFails(k) || es[k].address == 0 || !allocOk(k)
  }

  function FirstFailureFrom(es: seq<McfgAllocation>, checkFails: nat -> bool, allocOk: nat -> bool, i: nat)
    : (f: Option<nat>)
    requires i <= |es|
    ensures f.Some? ==> i <= f.value < |es| && Fails(es, f.value, checkFails, allocOk)
                        && forall j :: i <= j < f.value ==> !Fails(es, j, checkFails, allocOk)
    ensures f.None? ==> forall j :: i <= j < |es| ==> !Fails(es, j, checkFails, allocOk)
    decreases |es| - i
  {
    if i == |es| then None
    else if Fails(es, i, checkFails, allocOk) then Some(i)
    else FirstFailureFrom(es, checkFails, allocOk, i + 1)
  }

  /** The result of acpi_parse_mcfg on a table: -ENODEV for no records or a
      rejected record, -ENOMEM for a record that cannot be added, else 0. */
  function ParseStatus(t: McfgTable, checkFails: nat -> bool, allocOk: nat -> bool): Status
  {
    var es := Entries(t);
    if EntryCountAsWritten(t.length) == 0 then Failure(ENODEV)
    else match FirstFailureFrom(es, checkFails, allocOk, 0)
      case None => Success
      case Some(f) => if checkFails(f) then Failure(ENODEV) else Failure(ENOMEM)
  }

  /** pci_ecam_add builds the record's region whenever it succeeds. */
  lemma AllocIsEntryRegion(a: McfgAllocation, ok: bool)
    requires a.address != 0 && ok
    ensures Alloc(a.pciSegment, a.startBus, a.endBus, a.address, ok) == Some(EntryRegion(a))
  {
  }

  /** When record i fails and every record before it passes, the parse
      reports record i's error. */
  lemma FailureAt(t: McfgTable, checkFails: nat -> bool, allocOk: nat -> bool, i: nat)
    requires EntryCountAsWritten(t.length) != 0 && i < |Entries(t)|
    requires Fails(Entries(t), i, checkFails, allocOk)
    requires FirstFailureFrom(Entries(t), checkFails, allocOk, i) == FirstFailureFrom(Entries(t), checkFails, allocOk, 0)
    ensures ParseStatus(t, checkFails, allocOk) == (if checkFails(i) then Failure(ENODEV) else Failure(ENOMEM))
  {
    assert FirstFailureFrom(Entries(t), checkFails, allocOk, i) == Some(i);
  }

  /** acpi_parse_mcfg. `checkFails(k)` is acpi_mcfg_check_entry's verdict on
      record k and `allocOk(k)` the outcome of its kzalloc. A NULL header
      leaves the list alone; otherwise the list ends either holding exactly
      the table's regions or empty. */
  method ParseMcfg(list: EcamList, header: Option<McfgTable>, checkFails: nat -> bool, allocOk: nat -> bool)
    returns (s: Status)
    modifies list
    ensures header.None? ==> s == Failure(EINVAL) && list.regions == old(list.regions)
    ensures header.Some? ==> s == ParseStatus(header.value, checkFails, allocOk)
    ensures header.Some? && s.Success? ==>
              AddressesSet(Entries(header.value)) && list.regions == Built(Entries(header.value))
    ensures header.Some? && s.Failure? ==> list.regions == []
  {
    if header.None? {
      return Failure(EINVAL);
    }
    var t := header.value;
    list.FreeAll();
    var entries := CountEntries(t.length);
    if entries == 0 {
      return Failure(ENODEV);
    }
    var es := Entries(t);
    // `i < entries` converts the int count to unsigned long
    var n: u64 := U64(entries);
    assert n == |es|;
    var i := 0;
    while i < n
      invariant 0 <= i <= n == |es|
      invariant forall j :: 0 <= j < i ==> !Fails(es, j, checkFails, allocOk)
      invariant FirstFailureFrom(es, checkFails, allocOk, i) == FirstFailureFrom(es, checkFails, allocOk, 0)
      invariant AddressesSet(es[..i]) && list.regions == Built(es[..i])
    {
      var a := t.entryAt(i);
      assert a == es[i];
      if checkFails(i) {
        FailureAt(t, checkFails, allocOk, i);
        list.FreeAll();
        return Failure(ENODEV);
      }
      var r := list.Add(a.pciSegment, a.startBus, a.endBus, a.address, allocOk(i));
      if r.None? {
        FailureAt(t, checkFails, allocOk, i);
        list.FreeAll();
        return Failure(ENOMEM);
      }
      AllocIsEntryRegion(a, allocOk(i));
      BuiltStep(es, i);
      i := i + 1;
    }
    assert FirstFailureFrom(es, checkFails, allocOk, i) == None;
    assert es[..i] == es;
    return Success;
  }

  /** raw_pci_read: the MCFG default forwards its arguments unchanged. */
  method RawPciRead(list: EcamList, domain: nat, bus: nat, devfn: nat, reg: int, len: int,
                    mmio: (int, u64) -> u32) returns (s: Status, value: u32)
    ensures (s, value) == ReadOutcome(list.regions, domain, bus, devfn, reg, len, mmio)
  {
    s, value := list.Read(domain, bus, devfn, reg, len, mmio);
  }

  /** raw_pci_write: the MCFG default forwards its arguments unchanged. */
  method RawPciWrite(list: EcamList, domain: nat, bus: nat, devfn: nat, reg: int, len: int, value: u32)
    returns (s: Status, access: Option<MmioWrite>)
    ensures (s, access) == WriteOutcome(list.regions, domain, bus, devfn, reg, len, value)
  {
    s, access := list.Write(domain, bus, devfn, reg, len, value);
  }

  /** The regions acpi_table_parse leaves on the list: the list as it was
      without an MCFG table, the table's regions after a successful parse,
      and none after a failed one. */
  function ParsedRegions(before: seq<Region>, mcfg: Option<McfgTable>, checkFails: nat -> bool,
                         allocOk: nat -> bool): seq<Region>
  {
    if mcfg.None? then before
    else if ParseStatus(mcfg.value, checkFails, allocOk).Failure? then []
    else
      ParsedAddressesSet(mcfg.value, checkFails, allocOk);
      Built(Entries(mcfg.value))
  }

  /** A successful parse has found no record with a NULL address. */
  lemma ParsedAddressesSet(t: McfgTable, checkFails: nat -> bool, allocOk: nat -> bool)
    requires ParseStatus(t, checkFails, allocOk).Success?
    ensures AddressesSet(Entries(t))
  {
    var es := Entries(t);
    assert FirstFailureFrom(es, checkFails, allocOk, 0).None?;
    forall k | 0 <= k < |es|
      ensures es[k].address != 0
    {
      assert !Fails(es, k, checkFails, allocOk);
    }
  }

  /** The regions after pci_mmcfg_arch_init succeeds: each mapped at its
      ioremap result biased by its start bus. */
  function MappedList(rs: seq<Region>, io: nat -> u64): (m: seq<Region>)
    ensures |m| == |rs|
    ensures forall k :: 0 <= k < |rs| ==> m[k] == rs[k].(virt := Biased(io(k), rs[k].startBus))
  {
    seq(|rs|, k requires 0 <= k < |rs| => rs[k].(virt := Biased(io(k), rs[k].startBus)))
  }

  /** Whether pci_mmcfg_arch_init maps every region (no NULL biased base). */
  predicate AllMap(rs: seq<Region>, io: nat -> u64)
  {
    forall k :: 0 <= k < |rs| ==> Biased(io(k), rs[k].startBus) != 0
  }

  /** pci_mmcfg_late_init. `mcfg` is the MCFG table if the firmware has one
      (acpi_table_parse calls the parser only then), `io(i)` the ioremap result
      for the i-th listed region. The parsed list stays, mapped, when every
      region maps, and is emptied otherwise; the resources handed to
      insert_resource are those of the final list, in order. */
  method LateInit(list: EcamList, mcfg: Option<McfgTable>, checkFails: nat -> bool, allocOk: nat -> bool,
                  io: nat -> u64) returns (inserted: seq<Resource>)
    modifies list
    ensures var p := ParsedRegions(old(list.regions), mcfg, checkFails, allocOk);
            list.regions == (if AllMap(p, io) then MappedList(p, io) else [])
    ensures forall k :: 0 <= k < |list.regions| ==> Mapped(list.regions[k])
    ensures |inserted| == |list.regions|
    ensures forall k :: 0 <= k < |inserted| ==> inserted[k] == list.regions[k].res
  {
    if mcfg.Some? {
      var _ := ParseMcfg(list, mcfg, checkFails, allocOk);
    }
    ghost var p := list.regions;
    assert p == ParsedRegions(old(list.regions), mcfg, checkFails, allocOk);
    if list.regions == [] {
      assert MappedList(p, io) == [];
      return [];
    }
    var ok := list.ArchInit(io);
    if !ok {
      list.FreeAll();
    } else {
      assert list.regions == MappedList(p, io);
    }
    inserted := [];
    var k := 0;
    while k < |list.regions|
      invariant 0 <= k <= |list.regions|
      invariant |inserted| == k
      invariant forall j :: 0 <= j < k ==> inserted[j] == list.regions[j].res
    {
      inserted := inserted + [list.regions[k].res];
      k := k + 1;
    }
  }
}
