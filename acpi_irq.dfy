/** The MADT matching that picks an irqchip driver for the firmware's GIC
    (drivers/acpi/irq.c): each entry of the irqchip table names a subtable
    type and the GIC version it drives; the driver's handler runs when the
    MADT holds a matching subtable. */
module AcpiIrq {
  import opened Kernel
  import opened GicVersion

  /** AE_NOT_FOUND, the ACPICA status the match returns negated. */
  const AE_NOT_FOUND: int := 5

  const ACPI_MADT_TYPE_GENERIC_DISTRIBUTOR: u8 := 12

  /** A MADT subtable as the match sees it: its type, and for a GIC
      distributor the version byte. */
  datatype MadtSubtable = Subtable(subtableType: u8, version: u8)

  /** An entry of the irqchip ACPI table: id[0] (0 marks the end of the
      table), the subtable type, the version in driver_data, and which
      handler to run. */
  datatype AcpiTableId = AcpiTableId(id0: u8, subtableType: u8, driverData: u8, handler: nat)

  /** The version the match compares: V4 counts as V3. */
  function Normalised(version: u8): (v: u8)
    ensures v == version || (version == ACPI_MADT_GIC_VERSION_V4 && v == ACPI_MADT_GIC_VERSION_V3)
    ensures v != ACPI_MADT_GIC_VERSION_V4
  {
    if version == ACPI_MADT_GIC_VERSION_V4 then ACPI_MADT_GIC_VERSION_V3 else version
  }

  /** acpi_match_madt_subtable: only distributors are checked; one with
      version 0 always matches (the V2/V3 choice made from the
      redistributors is computed and dropped); otherwise the normalised
      version must equal driver_data, else -AE_NOT_FOUND. */
  function MatchMadtSubtable(h: MadtSubtable, driverData: u8, redistCount: int): (r: int)
    ensures r == 0 || r == -AE_NOT_FOUND
    ensures r == 0 <==> h.subtableType != ACPI_MADT_TYPE_GENERIC_DISTRIBUTOR
                        || h.version == ACPI_MADT_GIC_VERSION_NONE
                        || Normalised(h.version) == driverData
  {
    if h.subtableType != ACPI_MADT_TYPE_GENERIC_DISTRIBUTOR then 0
    // the V2/V3 choice from the redistributor count is dropped by the source
    else if h.version == ACPI_MADT_GIC_VERSION_NONE then 0
    else if Normalised(h.version) == driverData then 0
    else -AE_NOT_FOUND
  }

  /** A GICv4 distributor is claimed by the V3 driver and by no V4 entry;
      a version-0 distributor is claimed by every entry, whatever the
      redistributors say. */
  lemma MatchClaims(version: u8, driverData: u8, redistCount: int)
    ensures MatchMadtSubtable(Subtable(ACPI_MADT_TYPE_GENERIC_DISTRIBUTOR, ACPI_MADT_GIC_VERSION_V4), driverData, redistCount) == 0
            <==> driverData == ACPI_MADT_GIC_VERSION_V3
    ensures MatchMadtSubtable(Subtable(ACPI_MADT_TYPE_GENERIC_DISTRIBUTOR, ACPI_MADT_GIC_VERSION_NONE), driverData, redistCount) == 0
    ensures version != ACPI_MADT_GIC_VERSION_NONE && version != ACPI_MADT_GIC_VERSION_V4 ==>
              (MatchMadtSubtable(Subtable(ACPI_MADT_TYPE_GENERIC_DISTRIBUTOR, version), driverData, redistCount) == 0
               <==> version == driverData)
  {
  }

  /** The index of the end marker: the first entry whose id[0] is 0. */
  function EndOf(table: seq<AcpiTableId>, from: nat): (k: nat)
    requires from <= |table| && exists j :: from <= j < |table| && table[j].id0 == 0
    ensures from <= k < |table| && table[k].id0 == 0
    ensures forall j :: from <= j < k ==> table[j].id0 != 0
    decreases |table| - from
  {
    if table[from].id0 == 0 then from else EndOf(table, from + 1)
  }

  /** The handlers acpi_irq_init runs, in table order: those of the entries
      before the end marker whose MADT parse returned a positive count. */
  function HandlersRun(table: seq<AcpiTableId>, counts: seq<int>, from: nat, end: nat): (hs: seq<nat>)
    requires from <= end <= |table| && |counts| == |table|
    ensures |hs| <= end - from
    ensures forall h :: h in hs ==> exists j :: from <= j < end && counts[j] > 0 && table[j].handler == h
    decreases end - from
  {
    if from == end then []
    else (if counts[from] > 0 then [table[from].handler] else []) + HandlersRun(table, counts, from + 1, end)
  }

  /** Extending the walk by one entry appends that entry's handler when its
      count is positive. */
  lemma {:induction false} HandlersRunShift(table: seq<AcpiTableId>, counts: seq<int>, from: nat, i: nat, end: nat)
    requires from <= i < end <= |table| && |counts| == |table|
    ensures HandlersRun(table, counts, from, i + 1) ==
            HandlersRun(table, counts, from, i) + (if counts[i] > 0 then [table[i].handler] else [])
    decreases i - from
  {
    if from < i {
      HandlersRunShift(table, counts, from + 1, i, end);
    }
  }

  /** acpi_irq_init: nothing when ACPI is disabled; otherwise walks the
      irqchip table up to its end marker and runs an entry's handler when
      the MADT parse for its subtable type (`counts`, one per entry)
      returned more than 0. The table always ends with the marker. */
  method IrqInit(acpiDisabled: bool, table: seq<AcpiTableId>, counts: seq<int>) returns (run: seq<nat>)
    requires |counts| == |table| && |table| > 0 && table[|table| - 1].id0 == 0
    ensures acpiDisabled ==> run == []
    ensures !acpiDisabled ==> run == HandlersRun(table, counts, 0, EndOf(table, 0))
  {
    run := [];
    if acpiDisabled {
      return;
    }
    var i := 0;
    while table[i].id0 != 0
      invariant 0 <= i <= EndOf(table, 0)
      invariant run == HandlersRun(table, counts, 0, i)
      decreases |table| - i
    {
      HandlersRunShift(table, counts, 0, i, |table|);
      if counts[i] <= 0 {
        i := i + 1;
        continue;
      }
      run := run + [table[i].handler];
      i := i + 1;
    }
  }
}
