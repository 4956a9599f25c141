/** The ACPI root-bridge glue of arch/arm64/kernel/pci.c: per-root-bridge
    bookkeeping of whether the bridge added its own MMCONFIG region, the IO
    window rewrite of the bridge's resources, and the domain check of root
    scanning. */
module Arm64Pci {
  import opened Kernel
  import opened EcamRegion
  import opened Ecam

  /** One entry of the bridge's resource list. */
  datatype ResourceEntry = ResourceEntry(start: u64, end: u64, isIo: bool)

  /** (unsigned long)-1: pci_address_to_pio's "no port" answer. */
  const NO_PORT: u64 := 0xFFFF_FFFF_FFFF_FFFF

  /** The calls the IO rewrite makes for one IO resource: the CPU range it
      registers, the rewritten resource, and the CPU address it remaps. */
  datatype IoSetup = IoSetup(registerAddr: u64, registerLength: u64, rewritten: ResourceEntry, remapPhys: u64)

  /** The rewrite as written: the length is end - start (one short of the
      resource's size), and the rewritten resource's start, the port, is what
      is passed as the CPU address to remap. */
  function IoSetupAsWritten(e: ResourceEntry, port: u64): IoSetup
  {
    var length := U64(e.end - e.start);
    IoSetup(e.start, length, e.(start := port, end := U64(port + length - 1)), port)
  }

  /** For a window of 0x10000 ports at 0x3eff0000 that gets port 0: the
      rewritten window has 0xffff ports, and the remap is asked for CPU
      address 0 instead of the window's address. */
  lemma IoSetupAsWrittenLosesAPort()
    ensures var s := IoSetupAsWritten(ResourceEntry(0x3eff_0000, 0x3eff_ffff, true), 0);
            s.rewritten.start == 0 && s.rewritten.end == 0xfffe
            && s.registerLength == 0xffff && s.remapPhys == 0 != s.registerAddr
  {
  }

  /** resource_size: end - start + 1. */
  function ResourceSize(e: ResourceEntry): u64
  {
    U64(e.end - e.start + 1)
  }

  /** The evidently intended rewrite: register and rewrite with the resource's
      size and remap the CPU address that was registered. */
  function IoSetupFor(e: ResourceEntry, port: u64): (s: IoSetup)
    ensures e.start <= e.end < NO_PORT && port + (e.end - e.start) < U64_MODULUS ==>
              s.rewritten.start == port
              && s.rewritten.end - s.rewritten.start == e.end - e.start
              && s.registerLength == e.end - e.start + 1
              && s.remapPhys == s.registerAddr == e.start
              && s.rewritten.isIo == e.isIo
  {
    var length := ResourceSize(e);
    IoSetup(e.start, length, e.(start := port, end := U64(port + length - 1)), e.start)
  }

  /** Against the intended rewrite, the one as written registers and keeps
      one port fewer and remaps the port instead of the registered CPU
      address; both start at the port. */
  lemma IoSetupAsWrittenVsIntended(e: ResourceEntry, port: u64)
    requires e.start < e.end && port + (e.end - e.start) + 1 < U64_MODULUS
    ensures var w := IoSetupAsWritten(e, port);
            var s := IoSetupFor(e, port);
            w.registerAddr == s.registerAddr == e.start
            && w.registerLength + 1 == s.registerLength
            && w.rewritten.start == s.rewritten.start == port
            && w.rewritten.end + 1 == s.rewritten.end
            && w.remapPhys == port && s.remapPhys == e.start
  {
    var d := e.end - e.start;
    U64InRange(d);
    U64InRange(d + 1);
    U64InRange(port + d - 1);
    U64InRange(port + (d + 1) - 1);
  }

  /** What happens to one resource, as written: a non-IO resource is kept as
      it is; an IO resource is dropped when registration (of end - start
      bytes) fails, when it has no port or when the remap fails, and otherwise
      kept rewritten by IoSetupAsWritten. */
  function Prepared(e: ResourceEntry, registerFails: (u64, u64) -> bool, pio: u64 -> u64,
                    remapFails: (ResourceEntry, u64) -> bool): Option<ResourceEntry>
  {
    if !e.isIo then Some(e)
    else if registerFails(e.start, U64(e.end - e.start)) then None
    else if pio(e.start) == NO_PORT then None
    else
      var setup := IoSetupAsWritten(e, pio(e.start));
      if remapFails(setup.rewritten, setup.remapPhys) then None else Some(setup.rewritten)
  }

  /** The list after the rewrite, in order. */
  function PreparedAll(es: seq<ResourceEntry>, registerFails: (u64, u64) -> bool, pio: u64 -> u64,
                       remapFails: (ResourceEntry, u64) -> bool): seq<ResourceEntry>
  {
    if es == [] then []
    else
      PreparedAll(es[..|es| - 1], registerFails, pio, remapFails) + Kept(es[|es| - 1], registerFails, pio, remapFails)
  }

  /** The entries one resource leaves behind: itself, its rewrite, or nothing. */
  function Kept(e: ResourceEntry, registerFails: (u64, u64) -> bool, pio: u64 -> u64,
                remapFails: (ResourceEntry, u64) -> bool): seq<ResourceEntry>
  {
    var p := Prepared(e, registerFails, pio, remapFails);
    if p.Some? then [p.value] else []
  }

  lemma KeptNonIo(e: ResourceEntry, registerFails: (u64, u64) -> bool, pio: u64 -> u64,
                  remapFails: (ResourceEntry, u64) -> bool)
    ensures |Kept(e, registerFails, pio, remapFails)| <= 1
    ensures NonIo(Kept(e, registerFails, pio, remapFails)) == NonIo([e])
  {
    var k := Kept(e, registerFails, pio, remapFails);
    assert k != [] ==> k[0].isIo == e.isIo;
    assert [e][1..] == [];
    if k != [] {
      assert k[1..] == [];
    }
  }

  /** The rewrite never adds an entry and keeps every non-IO resource, in
      order: only IO resources are rewritten or destroyed. */
  lemma {:induction false} PreparedAllKeepsNonIo(es: seq<ResourceEntry>, registerFails: (u64, u64) -> bool,
                                                 pio: u64 -> u64, remapFails: (ResourceEntry, u64) -> bool)
    ensures |PreparedAll(es, registerFails, pio, remapFails)| <= |es|
    ensures NonIo(PreparedAll(es, registerFails, pio, remapFails)) == NonIo(es)
  {
    if es != [] {
      var init := es[..|es| - 1];
      var e := es[|es| - 1];
      var pre := PreparedAll(init, registerFails, pio, remapFails);
      var k := Kept(e, registerFails, pio, remapFails);
      assert PreparedAll(es, registerFails, pio, remapFails) == pre + k;
      PreparedAllKeepsNonIo(init, registerFails, pio, remapFails);
      KeptNonIo(e, registerFails, pio, remapFails);
      assert |pre + k| <= |init| + 1;
      assert init + [e] == es;
      calc {
        NonIo(pre + k);
        { NonIoAppend(pre, k); }
        NonIo(pre) + NonIo(k);
        NonIo(init) + NonIo([e]);
        { NonIoAppend(init, [e]); }
        NonIo(es);
      }
    }
  }

  lemma PreparedAllStep(es: seq<ResourceEntry>, i: nat, registerFails: (u64, u64) -> bool, pio: u64 -> u64,
                        remapFails: (ResourceEntry, u64) -> bool)
    requires i < |es|
    ensures PreparedAll(es[..i + 1], registerFails, pio, remapFails)
            == PreparedAll(es[..i], registerFails, pio, remapFails) + Kept(es[i], registerFails, pio, remapFails)
    ensures es[i..] == [es[i]] + es[i + 1..]
  {
    assert es[..i + 1][..i] == es[..i];
  }

  /** The parts of a list with one entry between a prefix and a suffix. */
  lemma SpliceParts(s: seq<ResourceEntry>, pre: seq<ResourceEntry>, e: ResourceEntry, post: seq<ResourceEntry>)
    requires s == pre + ([e] + post)
    ensures s[..|pre|] == pre && s[|pre|] == e && s[|pre| + 1..] == post
  {
    assert s[|pre|..] == [e] + post;
    assert s[|pre| + 1..] == s[|pre|..][1..];
  }

  /** The non-IO resources of a list, in order. */
  function NonIo(es: seq<ResourceEntry>): seq<ResourceEntry>
  {
    if es == [] then [] else (if es[0].isIo then [] else [es[0]]) + NonIo(es[1..])
  }

  lemma {:induction false} NonIoAppend(a: seq<ResourceEntry>, b: seq<ResourceEntry>)
    ensures NonIo(a + b) == NonIo(a) + NonIo(b)
  {
    if a != [] {
      assert (a + b)[0] == a[0];
      assert (a + b)[1..] == a[1..] + b;
      NonIoAppend(a[1..], b);
      var h := if a[0].isIo then [] else [a[0]];
      assert h + (NonIo(a[1..]) + NonIo(b)) == (h + NonIo(a[1..])) + NonIo(b);
    } else {
      assert a + b == b;
    }
  }

  /** struct pci_root_info, with the resource list of its common part and the
      bridge's segment. */
  class PciRootInfo {
    const segment: int
    var mcfgAdded: bool
    var startBus: u8
    var endBus: u8
    var resources: seq<ResourceEntry>

    constructor (segment: int, resources: seq<ResourceEntry>)
      ensures this.segment == segment && this.resources == resources && !mcfgAdded
    {
      this.segment := segment;
      this.resources := resources;
      mcfgAdded := false;
      startBus := 0;
      endBus := 0;
    }

    /** pci_add_mmconfig_region. `secondaryStart/End` is the bridge's bus
        range, `mcfgAddr` its MCFG address (_CBA), `allocOk` the kzalloc
        outcome and `io` the ioremap result inject would get. */
    method AddMmconfigRegion(list: EcamList, secondaryStart: int, secondaryEnd: int, mcfgAddr: u64,
                             allocOk: bool, io: u64) returns (s: Status)
      modifies this, list
      ensures startBus == U8(secondaryStart) && endBus == U8(secondaryEnd)
      ensures resources == old(resources)
      ensures LookupIndex(old(list.regions), segment, startBus).Some? ==>
                s == Success && !mcfgAdded && list.regions == old(list.regions)
      ensures LookupIndex(old(list.regions), segment, startBus).None? && (mcfgAddr == 0 || !allocOk) ==>
                s == Failure(ENOMEM) && !mcfgAdded && list.regions == old(list.regions)
      ensures LookupIndex(old(list.regions), segment, startBus).None? && mcfgAddr != 0 && allocOk ==>
                var cfg := Alloc(segment, startBus, endBus, mcfgAddr, true).value;
                (LookupIndex(old(list.regions), cfg.segment, cfg.startBus).Some? ==>
                   s == Failure(EEXIST) && list.regions == old(list.regions))
                && (LookupIndex(old(list.regions), cfg.segment, cfg.startBus).None? && Biased(io, cfg.startBus) == 0 ==>
                   s == Failure(ENOMEM) && list.regions == old(list.regions))
                && (LookupIndex(old(list.regions), cfg.segment, cfg.startBus).None? && Biased(io, cfg.startBus) != 0 ==>
                   s == Success && list.regions == InsertSorted(old(list.regions), cfg.(virt := Biased(io, cfg.startBus))))
      ensures mcfgAdded <==> LookupIndex(old(list.regions), segment, startBus).None? && s == Success
    {
      startBus := U8(secondaryStart);
      endBus := U8(secondaryEnd);
      mcfgAdded := false;
      var found := list.Lookup(segment, startBus);
      if found.Some? {
        return Success;
      }
      var cfg := Alloc(segment, startBus, endBus, mcfgAddr, allocOk);
      if cfg.None? {
        return Failure(ENOMEM);
      }
      s := list.Inject(cfg.value, io);
      if s == Success {
        mcfgAdded := true;
      }
    }

    /** pci_remove_mmconfig_region: delete the bridge's region only when it
        added it, then forget it; a second call does nothing. */
    method RemoveMmconfigRegion(list: EcamList)
      modifies this, list
      ensures !mcfgAdded
      ensures startBus == old(startBus) && endBus == old(endBus) && resources == old(resources)
      ensures !old(mcfgAdded) ==> list.regions == old(list.regions)
      ensures old(mcfgAdded) ==>
                match ExactIndex(old(list.regions), U16(segment), startBus, endBus)
                case None => list.regions == old(list.regions)
                case Some(k) => list.regions == old(list.regions)[..k] + old(list.regions)[k + 1..]
    {
      if mcfgAdded {
        var _ := list.Delete(U16(segment), startBus, endBus);
        mcfgAdded := false;
      }
    }

    /** pci_acpi_root_prepare_resources with the IO rewrite as written: walks
        the resource list, rewriting each IO entry in place or destroying it
        (`Prepared` decides which), and returns `status` unchanged. */
    method PrepareResources(status: int, registerFails: (u64, u64) -> bool, pio: u64 -> u64,
                            remapFails: (ResourceEntry, u64) -> bool) returns (r: int)
      modifies this
      ensures r == status
      ensures resources == PreparedAll(old(resources), registerFails, pio, remapFails)
      ensures mcfgAdded == old(mcfgAdded) && startBus == old(startBus) && endBus == old(endBus)
    {
      r := status;
      resources := PrepareList(resources, registerFails, pio, remapFails);
    }

    /** The walk of resource_list_for_each_entry_safe: entry j of the list is
        replaced by its rewrite or deleted, so `rs` always holds the entries
        already handled followed by the ones still to come. */
    static method PrepareList(es: seq<ResourceEntry>, registerFails: (u64, u64) -> bool, pio: u64 -> u64,
                              remapFails: (ResourceEntry, u64) -> bool) returns (rs: seq<ResourceEntry>)
      ensures rs == PreparedAll(es, registerFails, pio, remapFails)
    {
      rs := es;
      var i := 0;
      var j := 0;
      while i < |es|
        invariant 0 <= i <= |es|
        invariant j == |PreparedAll(es[..i], registerFails, pio, remapFails)|
        invariant rs == PreparedAll(es[..i], registerFails, pio, remapFails) + es[i..]
      {
        ghost var done := PreparedAll(es[..i], registerFails, pio, remapFails);
        PreparedAllStep(es, i, registerFails, pio, remapFails);
        SpliceParts(rs, done, es[i], es[i + 1..]);
        // the entry is rewritten in place (one entry) or destroyed (none)
        var kept := Kept(rs[j], registerFails, pio, remapFails);
        rs := rs[..j] + kept + rs[j + 1..];
        assert rs == (done + kept) + es[i + 1..];
        j := j + |kept|;
        i := i + 1;
      }
      assert es[..i] == es;
    }
  }

  /** The region pci_add_mmconfig_region inserts for a bridge (segment, bus
      range start..end, MCFG address addr) when the list had none for its
      first bus, with ioremap result io. */
  function AddedRegion(segment: int, start: u8, end: u8, addr: u64, io: u64): Region
    requires addr != 0
  {
    var cfg := Alloc(segment, start, end, addr, true).value;
    cfg.(virt := Biased(io, cfg.startBus))
  }

  /** Removing what a bridge added gives back the list it started from: with
      no region of the segment covering the bridge's first bus, no region
      matches its (segment, start, end) key, so delete finds the inserted one. */
  lemma RemoveUndoesAdd(rs: seq<Region>, segment: int, start: u8, end: u8, addr: u64, io: u64)
    requires 0 <= segment < 0x10000 && start <= end && addr != 0
    requires LookupIndex(rs, segment, start).None?
    ensures var added := InsertSorted(rs, AddedRegion(segment, start, end, addr, io));
            ExactIndex(added, U16(segment), start, end).Some?
            && var k := ExactIndex(added, U16(segment), start, end).value;
               added[..k] + added[k + 1..] == rs
  {
    AddedRegionKey(segment, start, end, addr, io);
    RemoveUndoesInsert(rs, AddedRegion(segment, start, end, addr, io), segment);
  }

  /** The same for any region whose first bus no region of its segment covers. */
  lemma RemoveUndoesInsert(rs: seq<Region>, r: Region, segment: int)
    requires r.segment == segment && r.startBus <= r.endBus
    requires LookupIndex(rs, segment, r.startBus).None?
    ensures ExactIndex(InsertSorted(rs, r), r.segment, r.startBus, r.endBus).Some?
    ensures var k := ExactIndex(InsertSorted(rs, r), r.segment, r.startBus, r.endBus).value;
            InsertSorted(rs, r)[..k] + InsertSorted(rs, r)[k + 1..] == rs
  {
    var e := ExactIndex(rs, r.segment, r.startBus, r.endBus);
    if e.Some? {
      assert false;
    }
    InsertThenDeleteRestores(rs, r);
  }

  /** The added region carries the bridge's segment and bus range. */
  lemma AddedRegionKey(segment: int, start: u8, end: u8, addr: u64, io: u64)
    requires 0 <= segment < 0x10000 && addr != 0
    ensures var r := AddedRegion(segment, start, end, addr, io);
            r.segment == U16(segment) == segment && r.startBus == start && r.endBus == end
  {
    NarrowInRange(segment);
    NarrowInRange(start);
    NarrowInRange(end);
  }

  /** pci_acpi_scan_root: a non-zero domain without domain support gives NULL,
      as does a failed allocation; otherwise the bus acpi_pci_root_create
      returns (`created`). */
  function ScanRoot(domain: int, domainsSupported: bool, allocOk: bool, created: Option<nat>): (bus: Option<nat>)
    ensures domain != 0 && !domainsSupported ==> bus.None?
    ensures !allocOk ==> bus.None?
    ensures bus.Some? ==> bus == created
    ensures (domain == 0 || domainsSupported) && allocOk ==> bus == created
  {
    if domain != 0 && !domainsSupported then None
    else if !allocOk then None
    else created
  }
}
