/** GIC version resolution from the MADT GIC Distributor structure
    (drivers/irqchip/irq-gic-acpi.c). Section 5.2.12.15 of ACPI 6.0 gives the
    structure a version field; under ACPI 5.1 that byte is reserved as 0, and
    the version is then found from the redistributors and the distributor's
    PIDR2 register. */
module GicVersion {
  import opened Kernel

  const ACPI_MADT_GIC_VERSION_NONE: u8 := 0
  const ACPI_MADT_GIC_VERSION_V1: u8 := 1
  const ACPI_MADT_GIC_VERSION_V2: u8 := 2
  const ACPI_MADT_GIC_VERSION_V3: u8 := 3
  const ACPI_MADT_GIC_VERSION_V4: u8 := 4
  const ACPI_MADT_GIC_VERSION_RESERVED: u8 := 5

  /** GIC_PIDR2_ARCH_MASK and GIC_PIDR2_ARCH_GICv3: bits 4-7 of GICD_PIDR2
      hold the architecture revision. */
  const GIC_PIDR2_ARCH_MASK: bv32 := 0xf0
  const GIC_PIDR2_ARCH_GICv3: bv32 := 0x30

  /** The fields of an MADT GIC Distributor subtable the driver reads. */
  datatype Distributor = Distributor(version: u8, baseAddress: u64)

  /** acpi_gic_redist_is_present: the redistributor parse found at least
      one entry. */
  predicate RedistPresent(count: int)
  {
    count > 0
  }

  /** The architecture field of a PIDR2 value. */
  function PidrArch(pidr2: bv32): bv32
  {
    pidr2 & GIC_PIDR2_ARCH_MASK
  }

  /** The version hardware discovery gives for a version-0 distributor:
      V2 without redistributors; with them, V3 when PIDR2 says GICv3 and V4
      otherwise. None when the distributor cannot be mapped (-ENOMEM). */
  function Discovered(redistCount: int, mapOk: bool, pidr2: bv32): Option<u8>
  {
    if !RedistPresent(redistCount) then Some(ACPI_MADT_GIC_VERSION_V2)
    else if !mapOk then None
    else if PidrArch(pidr2) == GIC_PIDR2_ARCH_GICv3 then Some(ACPI_MADT_GIC_VERSION_V3)
    else Some(ACPI_MADT_GIC_VERSION_V4)
  }

  /** acpi_gic_version_init's result and the gic_version it leaves, given
      the distributor parse count, gic_version after that parse, the
      redistributor parse count, whether ioremap succeeds and PIDR2. */
  function VersionInitSpec(count: int, version: u8, redistCount: int, mapOk: bool, pidr2: bv32): (int, u8)
  {
    if count <= 0 then (-Code(ENODEV), version)
    else if version >= ACPI_MADT_GIC_VERSION_RESERVED then (-Code(EINVAL), version)
    else if version != ACPI_MADT_GIC_VERSION_NONE then (0, version)
    else match Discovered(redistCount, mapOk, pidr2)
      case None => (-Code(ENOMEM), version)
      case Some(v) => (0, v)
  }

  /** A successful init leaves a concrete version, V1 to V4; an explicit
      valid version is kept as it is, and only version 0 is resolved. */
  lemma VersionInitResolves(count: int, version: u8, redistCount: int, mapOk: bool, pidr2: bv32)
    ensures var (r, v) := VersionInitSpec(count, version, redistCount, mapOk, pidr2);
            (r == 0 <==> count > 0 && version < ACPI_MADT_GIC_VERSION_RESERVED
                         && (version != ACPI_MADT_GIC_VERSION_NONE || !RedistPresent(redistCount) || mapOk))
            && (r == 0 ==> ACPI_MADT_GIC_VERSION_V1 <= v <= ACPI_MADT_GIC_VERSION_V4)
            && (r == 0 && version != ACPI_MADT_GIC_VERSION_NONE ==> v == version)
            && (r != 0 ==> v == version)
  {
    if count > 0 && version == ACPI_MADT_GIC_VERSION_NONE {
      var d := Discovered(redistCount, mapOk, pidr2);
      assert d.None? <==> RedistPresent(redistCount) && !mapOk;
      assert d.Some? ==> ACPI_MADT_GIC_VERSION_V2 <= d.value <= ACPI_MADT_GIC_VERSION_V4;
    }
  }

  /** Version 0 resolves to V3 or V4 exactly when redistributors are
      present, and to V3 exactly when PIDR2's architecture field is GICv3. */
  lemma DiscoveryFollowsRedistributors(redistCount: int, pidr2: bv32)
    ensures var (r, v) := VersionInitSpec(1, ACPI_MADT_GIC_VERSION_NONE, redistCount, true, pidr2);
            r == 0
            && (v == ACPI_MADT_GIC_VERSION_V2 <==> !RedistPresent(redistCount))
            && (v == ACPI_MADT_GIC_VERSION_V3 <==> RedistPresent(redistCount) && (pidr2 >> 4) & 0xf == 3)
  {
    assert PidrArch(pidr2) == GIC_PIDR2_ARCH_GICv3 <==> (pidr2 >> 4) & 0xf == 3;
  }

  /** The driver's globals gic_version and dist_phy_base. */
  class GicAcpi {
    var gicVersion: u8
    var distPhyBase: u64

    constructor ()
      ensures gicVersion == ACPI_MADT_GIC_VERSION_NONE && distPhyBase == 0
    {
      gicVersion := ACPI_MADT_GIC_VERSION_NONE;
      distPhyBase := 0;
    }

    /** acpi_gic_parse_distributor: a bad entry is -EINVAL and records
        nothing; otherwise the entry's version and base are recorded, so
        the last distributor parsed wins. */
    method ParseDistributor(d: Distributor, badEntry: bool) returns (r: int)
      modifies this
      ensures badEntry ==> r == -Code(EINVAL) && gicVersion == old(gicVersion) && distPhyBase == old(distPhyBase)
      ensures !badEntry ==> r == 0 && gicVersion == d.version && distPhyBase == d.baseAddress
    {
      if badEntry {
        return -Code(EINVAL);
      }
      gicVersion := d.version;
      distPhyBase := d.baseAddress;
      return 0;
    }

    /** acpi_gic_version_init after the distributor parse has run: `count`
        is what that parse returned. */
    method VersionInit(count: int, redistCount: int, mapOk: bool, pidr2: bv32) returns (r: int)
      modifies this
      ensures (r, gicVersion) == VersionInitSpec(count, old(gicVersion), redistCount, mapOk, pidr2)
      ensures distPhyBase == old(distPhyBase)
    {
      if count <= 0 {
        return -Code(ENODEV);
      }
      if gicVersion >= ACPI_MADT_GIC_VERSION_RESERVED {
        return -Code(EINVAL);
      }
      if gicVersion == ACPI_MADT_GIC_VERSION_NONE {
        if RedistPresent(redistCount) {
          if !mapOk {
            return -Code(ENOMEM);
          }
          var reg := PidrArch(pidr2);
          if reg == GIC_PIDR2_ARCH_GICv3 {
            gicVersion := ACPI_MADT_GIC_VERSION_V3;
          } else {
            gicVersion := ACPI_MADT_GIC_VERSION_V4;
          }
        } else {
          gicVersion := ACPI_MADT_GIC_VERSION_V2;
        }
      }
      return 0;
    }
  }
}
