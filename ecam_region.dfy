/** The ECAM region record of include/linux/ecam.h: its field widths, the
    per-bus window macro and the size of its resource-name buffer. The ECAM
    address layout is the one of section 7.2.2 of the PCI Express Base
    Specification: bus in bits 27:20, device/function in 19:12, register in 11:0. */
module EcamRegion {
  import opened Kernel

  /** PCI_ECAM_BUS_OFFSET(bus): bus << 20, a 1 MiB window per bus. */
  function BusOffset(bus: nat): nat
  {
    bus * 0x10_0000
  }

  /** An offset inside a bus window decodes back to the bus and the offset. */
  lemma BusWindowDecode(bus: nat, off: nat)
    requires off < 0x10_0000
    ensures (BusOffset(bus) + off) / 0x10_0000 == bus
    ensures (BusOffset(bus) + off) % 0x10_0000 == off
  {
  }

  /** Distinct buses get disjoint 1 MiB windows. */
  lemma BusWindowsDisjoint(b1: nat, o1: nat, b2: nat, o2: nat)
    requires o1 < 0x10_0000 && o2 < 0x10_0000
    requires BusOffset(b1) + o1 == BusOffset(b2) + o2
    ensures b1 == b2 && o1 == o2
  {
    BusWindowDecode(b1, o1);
    BusWindowDecode(b2, o2);
  }

  /** PCI_ECAM_RESOURCE_NAME_LEN: the name buffer, terminating NUL included. */
  const RESOURCE_NAME_LEN: nat := 22 + 4 + 2 + 2

  datatype Resource = Resource(start: u64, end: u64)

  /** struct pci_ecam_region without its list links. `virt` is the mapped
      base as an address; 0 is NULL, the region is then unmapped. */
  datatype Region = Region(address: u64, virt: u64, segment: u16, startBus: u8, endBus: u8,
                           res: Resource, name: string)

  predicate Mapped(r: Region)
  {
    r.virt != 0
  }

  // ---------------------------------------------------------------------
  // printf-style hexadecimal formatting, for the region's resource name

  function Pow16(k: nat): (p: nat)
    ensures p >= 1
  {
    if k == 0 then 1 else 16 * Pow16(k - 1)
  }

  function HexDigit(d: nat): char
    requires d < 16
  {
    if d < 10 then ('0' as int + d) as char else ('a' as int + d - 10) as char
  }

  /** The digits of n in lower-case hexadecimal, without leading zeros ("" for 0). */
  function HexDigits(n: nat): string
  {
    if n == 0 then [] else HexDigits(n / 16) + [HexDigit(n % 16)]
  }

  /** `%0<width>x`: the digits of n ("0" for 0), zero-padded on the left to `width`. */
  function Hex(n: nat, width: nat): string
  {
    var ds := if n == 0 then "0" else HexDigits(n);
    if |ds| >= width then ds else seq(width - |ds|, _ => '0') + ds
  }

  lemma {:induction false} HexDigitsLength(n: nat, k: nat)
    requires n < Pow16(k)
    ensures |HexDigits(n)| <= k
  {
    if n != 0 {
      assert k > 0;
      HexDigitsLength(n / 16, k - 1);
    }
  }

  /** A number below 16^width prints in exactly `width` characters. */
  lemma HexWidth(n: nat, width: nat)
    requires 1 <= width && n < Pow16(width)
    ensures |Hex(n, width)| == width
  {
    HexDigitsLength(n, width);
  }

  /** snprintf into a buffer of `size` bytes keeps at most size - 1 characters. */
  function Truncate(s: string, size: nat): (t: string)
    requires size >= 1
    ensures |t| <= size - 1 && |t| <= |s| && t == s[..|t|]
    ensures |s| <= size - 1 ==> t == s
  {
    if |s| <= size - 1 then s else s[..size - 1]
  }
}
