# ACPI/IORT, ECAM and GIC glue: a Dafny model

This project models the firmware-driven discovery and translation glue of an
early arm64/x86 Linux tree, and proves properties of that model:

- the IORT (IO Remapping Table) ID-translation engine: the MSI domain-token
  registry, the node scan, parent steps, ID mapping and translation, the
  endpoint lookup and the device-to-ITS-ID façade (`iort.dfy`);
- the ECAM/MMCONFIG region list: sorted insertion, lookup, delete, inject,
  allocation with its resource and name, the ioremap bias, and config
  reads/writes (`ecam_region.dfy` for `include/linux/ecam.h`, `ecam.dfy`);
- MCFG parsing and the weak raw accessors (`mcfg.dfy`);
- the NumaChip bus-0 filter (`numachip.dfy`);
- the arm64 root-bridge glue: per-bridge MMCONFIG add/remove, the IO-window
  rewrite of the bridge's resources, the domain check (`arm64_pci.dfy`);
- the AMD IOMMU performance-counter PMU: the bank/counter allocator, config
  decoding, match registers, the 48-bit counter delta and the event state
  flags (`amd_iommu_pmu.dfy`);
- the GIC MSI-frame and ITS registries (`acpi_gic.dfy`), GIC version
  resolution (`gic_version.dfy`), MADT subtable matching for irqchip
  drivers (`acpi_irq.dfy`) and the ACPI GSI layer (`gsi.dfy`).

`kernel.dfy` holds what they share: fixed-width integers with explicit
wrap-around, errno values, and Option/Result/Status.

Code that updates state becomes a class whose methods are proved against
specification functions. Examples are the token registry, the region list,
root-bridge info, the PMU and its events, the GIC registries and the GSI
globals. Pure code becomes functions with characterising contracts and
lemmas.

Modelling choices:

- An IORT table is its header fields plus a total decode of the node at any
  offset. This is needed because parent references are not bounds-checked.
- Walks up the parent chain carry a ghost fuel bound, together with a
  precondition that the chain ends within it. A lemma shows that the bound
  never changes a result.
- Hardware and foreign calls become inputs. These include kzalloc and
  ioremap outcomes, MMIO values, PIDR2, the counter register,
  `acpi_table_parse_madt` counts and `irq_find_mapping` results.

Modelling choices that differ from a literal reading of the comments:

- Translation skips single mappings (`iort.c:253-254`). A single mapping is
  never applied on the way up; it is only read by the endpoint lookup.
- For a named component, translation starts at the parent of the component
  node and feeds it the endpoint ID.
- The region name is "PCI MMCONFIG %04x [bus %02x-%02x]" (`ecam.c:265-266`).

## Model

| member | source | states |
|---|---|---|
| Iort.TokenOfIsFirstMatch | drivers/acpi/iort.c:73-84 | lookup gives NULL when no chip has the translation ID, else the token of the first such chip in list order |
| Iort.LatestRegistrationWins | drivers/acpi/iort.c:50-84 | because registration prepends, lookup returns the token of the most recent registration of the ID |
| Iort.MsiChipRegistry.RegisterDomainToken | drivers/acpi/iort.c:50-64 | success puts the (u32 ID, token) chip at the head of the list; an allocation failure is -ENOMEM with the list unchanged |
| Iort.MsiChipRegistry.FindMsiDomainToken | drivers/acpi/iort.c:73-84 | the list walk returns exactly the first-match token for the ID converted to u32 |
| Iort.ScanFrom | drivers/acpi/iort.c:87-126 | a node the scan returns lies inside the table, has the requested type and satisfies the callback |
| Iort.Scan | drivers/acpi/iort.c:87-126 | no table gives NULL; a returned node is inside the table and accepted |
| Iort.ScanReturnsFirstHit | drivers/acpi/iort.c:87-126 | when node k is the first accepted node, every earlier node lies inside the table, and k < node_count, the scan returns node k's offset |
| Iort.ScanStopsAtTableEnd | drivers/acpi/iort.c:87-126 | the scan returns NULL once the node pointer reaches table start + length before any hit |
| Iort.ScanStopsAfterNodeCount | drivers/acpi/iort.c:87-126 | the scan looks at no more than node_count nodes |
| Iort.ScanResultIsFirstHit | drivers/acpi/iort.c:87-126 | whatever the scan returns is the k-th node for some k < node_count, with every earlier node a miss |
| Iort.ScanNode | drivers/acpi/iort.c:87-126 | the loop that steps by each node's length returns exactly Scan |
| Iort.FindParentNode | drivers/acpi/iort.c:128-148 | there is a parent exactly when the node is non-NULL with non-zero mapping offset and count and a non-zero first output reference; the parent is that first mapping's reference |
| Iort.MapIdIsFirstCandidate | drivers/acpi/iort.c:231-275 | a translation step finds no mapping exactly when none is a non-single in-range candidate; otherwise the first candidate in array order is applied |
| Iort.TranslateFuelIrrelevant | drivers/acpi/iort.c:231-275 | any two sufficient bounds on the parent walk give the same translation |
| Iort.TranslateStep | drivers/acpi/iort.c:231-275 | at a non-ITS node with a mapping array, the walk applies the first candidate and continues at the parent named by the first mapping |
| Iort.TranslateErrors | drivers/acpi/iort.c:231-275 | translation fails only with -EINVAL (no mapping array) or -ENXIO (no matching mapping) |
| Iort.TranslateDevToDevid | drivers/acpi/iort.c:231-275 | the loop's result is exactly the recursive Translate |
| Iort.FindEndpointDevid | drivers/acpi/iort.c:277-302 | the loop returns the output base of the indx-th single mapping, counting single mappings only, or the source's error |
| Iort.ClimbToItsGroup | drivers/acpi/iort.c:199-228 | a climb that succeeds ends at a node of type ITS group |
| Iort.TranslationReachesItsGroup | drivers/acpi/iort.c:199-275 | a translation that succeeds from p passes through an ITS group that the ITS-ID climb from p also reaches |
| Iort.ItsCountIndexReadsPastEnd | drivers/acpi/iort.c:220-224 | as written, idx == its_count passes the check and reads past the identifier array |
| Iort.ItsIdentifier | drivers/acpi/iort.c:218-227 | the corrected check returns identifiers[idx] exactly when idx < its_count, else -ENXIO |
| Iort.DevFindItsId | drivers/acpi/iort.c:199-228 | the scan, the parent climb and the index check as written give ItsIdOf: an identifier read implies an ITS group reached with idx < its_count; idx == its_count passes the check and reads past the array; any other failure is -ENXIO |
| Iort.FindDevId | drivers/acpi/iort.c:311-345 | named-component scan, endpoint index 0, parent step and translation, as DevIdOf |
| Iort.FindPciId | drivers/acpi/iort.c:356-372 | root-complex scan, then translation of the requester ID, as PciIdOf |
| EcamRegion.BusWindowDecode | include/linux/ecam.h:48 | bus << 20 plus an offset below 1 MiB decodes back to the bus and the offset |
| EcamRegion.BusWindowsDisjoint | include/linux/ecam.h:48 | distinct (bus, offset) pairs give distinct addresses |
| EcamRegion.HexWidth | drivers/pci/ecam.c:265-266 | a %0Nx field of a value below 16^N is exactly N characters |
| EcamRegion.Truncate | drivers/pci/ecam.c:265-266 | snprintf keeps a prefix of at most size - 1 characters, the whole text when it fits |
| Ecam.InsertPos | drivers/pci/ecam.c:227-241 | the insertion point is the first region with a greater segment, or the same segment and a start bus at least the new one's |
| Ecam.InsertSortedKeepsOrder | drivers/pci/ecam.c:227-241 | sorted insertion keeps the list sorted by (segment, start bus) and adds exactly the new region |
| Ecam.LookupFrom | drivers/pci/ecam.c:292-302 | lookup returns the first region of the segment whose bus range covers the bus, or none when no region does |
| Ecam.ExactFrom | drivers/pci/ecam.c:305-325 | delete's search finds the first region with exactly that segment, start and end |
| Ecam.RemoveKeepsOrder | drivers/pci/ecam.c:305-325 | removing one region keeps the list sorted |
| Ecam.InsertThenDeleteRestores | drivers/pci/ecam.c:227-241 | when no region has the new region's key, deleting it after insertion gives back the original list |
| Ecam.UnmapUndoesBias | drivers/pci/ecam.c:83-96 | unmapping adds back the start-bus offset that mcfg_ioremap subtracted, releasing the ioremap address |
| Ecam.EcamOffsetDecode | drivers/pci/ecam.c:27-35 | bus << 20 \| devfn << 12 \| reg decodes back to bus, devfn and reg |
| Ecam.AccessLandsInMapping | drivers/pci/ecam.c:27-96 | for any non-NULL ioremap result, an access to a covered bus through the biased base lands at ioremap address + (bus - start_bus) << 20 + devfn << 12 + reg, modulo 2^64 |
| Ecam.MappedWriteOutcome | drivers/pci/ecam.c:61-81 | an in-range write whose device base is found performs exactly one write, of the given width and value, at that base + reg, and succeeds |
| Ecam.ResourceNameFits | drivers/pci/ecam.c:265-266 | the name is shorter than PCI_MMCFG_RESOURCE_NAME_LEN and is the full text for in-range segment and buses |
| Ecam.Alloc | drivers/pci/ecam.c:243-270 | NULL exactly for a zero address or a failed allocation |
| Ecam.ResourceSpansBuses | drivers/pci/ecam.c:243-270 | the resource covers address + start << 20 to address + (end + 1) << 20 - 1 |
| Ecam.AllocFields | drivers/pci/ecam.c:243-270 | the region keeps the address, the u16 segment and the u8 bus range, unmapped |
| Ecam.EcamList.ListAddSorted | drivers/pci/ecam.c:227-241 | the list becomes InsertSorted of the old list |
| Ecam.EcamList.Lookup | drivers/pci/ecam.c:292-302 | the list walk returns LookupIndex |
| Ecam.EcamList.Delete | drivers/pci/ecam.c:305-325 | the first exact match is removed and success returned, else -ENOENT with the list unchanged |
| Ecam.EcamList.ArchMap | drivers/pci/ecam.c:119-128 | the region's virt is the biased ioremap result; a NULL mapping is -ENOMEM |
| Ecam.EcamList.Inject | drivers/pci/ecam.c:327-358 | a region whose first bus is already covered is -EEXIST, a failed map -ENOMEM, otherwise the mapped region is inserted in order |
| Ecam.EcamList.Add | drivers/pci/ecam.c:272-290 | Alloc's result is inserted unmapped when allocation succeeds, nothing otherwise |
| Ecam.EcamList.DevBase | drivers/pci/ecam.c:27-35 | the device base is the covering region's virt plus the ECAM offset, NULL without one |
| Ecam.EcamList.Read | drivers/pci/ecam.c:37-59 | out-of-range bus, devfn or reg, or no region, is -EINVAL with all ones; otherwise the MMIO read at the device base + reg |
| Ecam.EcamList.Write | drivers/pci/ecam.c:61-81 | the same guards; success performs exactly one write at the device base + reg |
| Ecam.EcamList.ArchUnmap | drivers/pci/ecam.c:130-136 | a mapped region's ioremap address is released and its virt cleared |
| Ecam.EcamList.ArchFree | drivers/pci/ecam.c:111-117 | every region is unmapped, the list otherwise unchanged |
| Ecam.EcamList.ArchInit | drivers/pci/ecam.c:98-109 | success exactly when every region maps; on failure every mapping is released |
| Ecam.EcamList.FreeAll | drivers/pci/ecam.c:218-225 | the list becomes empty |
| Mcfg.CountEntries | drivers/acpi/mcfg.c:47-54 | the decrementing loop over the unsigned long remainder leaves the int count of EntryCountAsWritten: floor((length - 44) / 16) for a table at least as long as its 44-byte header, a negative count for a shorter one |
| Mcfg.EntryCount | drivers/acpi/mcfg.c:47-54 | the intended count: no records in a table shorter than its header, else the number of whole 16-byte records after it |
| Mcfg.EntryCountAsWrittenAgrees | drivers/acpi/mcfg.c:47-54 | for a table at least as long as its header, the count as written, the number of records the parse loop visits and the intended count coincide |
| Mcfg.ShortTableCountWraps | drivers/acpi/mcfg.c:50-61 | for a table 44 - d bytes long (1 <= d <= 44) the unsigned remainder wraps, the int count wraps to -ceil(d/16), and the record loop's bound is 2^64 - ceil(d/16), past the table's end |
| Mcfg.BuiltIsSortedAndComplete | drivers/acpi/mcfg.c:60-74 | adding every entry gives a sorted list holding exactly the entries' regions |
| Mcfg.FirstFailureFrom | drivers/acpi/mcfg.c:60-74 | the first entry whose check or allocation fails, none when all succeed |
| Mcfg.ParseMcfg | drivers/acpi/mcfg.c:35-77 | no table is -EINVAL with the list unchanged; a zero count is -ENODEV; the loop visits RecordCount records (past the table for one shorter than its header); the first failing record empties the list with its error; success leaves every visited record's region, sorted |
| Mcfg.RawPciRead | drivers/acpi/mcfg.c:23-27 | the weak raw read is the ECAM read |
| Mcfg.RawPciWrite | drivers/acpi/mcfg.c:29-33 | the weak raw write is the ECAM write |
| Mcfg.LateInit | drivers/acpi/mcfg.c:90-103 | the list after late init is the parsed list (unchanged without a table, the records' regions after a successful parse, empty after a failed one) with every region mapped at its biased ioremap result when all of them map, and empty otherwise; the resources inserted are those of the final list, in order |
| NumaChip.PciDevfn | arch/x86/pci/numachip.c:104 | PCI_DEVFN keeps a devfn below 0x100 |
| NumaChip.FullFabricLimitBlocksBusZero | arch/x86/pci/numachip.c:104 | as written, a fabric size of 7 gives limit 0, which filters every device on bus 0, the northbridge at 0x18 included |
| NumaChip.NumachipLimit | arch/x86/pci/numachip.c:103-104 | the corrected limit filters exactly the bus-0 devices past the fabric's northbridges, and equals the written one for sizes below 7 |
| NumaChip.NumachipMatchesEcamOutsideFilter | arch/x86/pci/numachip.c:31-85 | outside the bus-0 filter the NumaChip accessors behave as the ECAM ones; inside, reads give all ones and writes do nothing, both returning success |
| NumaChip.NumaChipPci.Read | arch/x86/pci/numachip.c:31-59 | the read equals NumachipReadOutcome |
| NumaChip.NumaChipPci.Write | arch/x86/pci/numachip.c:61-85 | the write equals NumachipWriteOutcome |
| NumaChip.NumaChipPci.Init | arch/x86/pci/numachip.c:92-110 | a failed register read returns its error and changes nothing; otherwise it stores the u8 limit as written (PCI_DEVFN(0x18 + size + 1, 0) narrowed to u8, 0 for a full fabric) and installs the NumaChip ops |
| Arm64Pci.IoSetupAsWrittenLosesAPort | arch/arm64/kernel/pci.c:227-245 | as written, a 0x10000-port window rewritten to port 0 ends at 0xfffe, and remap is asked for CPU address 0 |
| Arm64Pci.IoSetupFor | arch/arm64/kernel/pci.c:227-245 | the corrected rewrite keeps the window's size, registers resource_size and remaps the registered CPU address |
| Arm64Pci.IoSetupAsWrittenVsIntended | arch/arm64/kernel/pci.c:227-245 | for a window of more than one port, the as-written rewrite registers and keeps one port fewer than the intended one and remaps the port instead of the window's CPU address |
| Arm64Pci.PreparedAllKeepsNonIo | arch/arm64/kernel/pci.c:211-250 | the rewrite never adds entries and keeps every non-IO entry, in order |
| Arm64Pci.PciRootInfo.AddMmconfigRegion | arch/arm64/kernel/pci.c:147-175 | records the u8 bus range; an existing covering region is success without adding; allocation failure is -ENOMEM; otherwise inject's result; mcfg_added exactly when this bridge inserted its region |
| Arm64Pci.PciRootInfo.RemoveMmconfigRegion | arch/arm64/kernel/pci.c:177-187 | deletes the bridge's (segment, start, end) region only when it added it, and clears mcfg_added |
| Arm64Pci.PciRootInfo.PrepareResources | arch/arm64/kernel/pci.c:211-250 | returns status unchanged; the list becomes PreparedAll of the old list, the rewrite as written: register end - start bytes, end = port + (end - start) - 1, remap with the port as CPU address |
| Arm64Pci.PciRootInfo.PrepareList | arch/arm64/kernel/pci.c:216-247 | the in-place walk that rewrites (as written) or destroys entries gives PreparedAll |
| Arm64Pci.RemoveUndoesAdd | arch/arm64/kernel/pci.c:147-187 | removing what a bridge added gives back the region list it started from |
| Arm64Pci.ScanRoot | arch/arm64/kernel/pci.c:260-295 | a non-zero domain without domain support, or a failed allocation, gives NULL; otherwise the created bus |
| AmdIommuPmu.FirstFreeFrom | arch/x86/events/amd/iommu.c:169-180 | the scan's slot is free and every slot before it in bank/counter order is taken; none means all are taken |
| AmdIommuPmu.FirstFreeIs | arch/x86/events/amd/iommu.c:169-180 | a free slot with every earlier slot taken is the one the allocator picks |
| AmdIommuPmu.SlotCodeRoundTrip | arch/x86/events/amd/iommu.c:176 | the (u16)(bank << 8) \| (u8)cntr code decodes with _GET_BANK/_GET_CNTR back to bank and counter |
| AmdIommuPmu.FifthCounterSharesNextBanksBit | arch/x86/events/amd/iommu.c:171 | with five counters per bank, counter 4 of bank 0 and counter 0 of bank 1 share a bit, so the allocator skips the latter |
| AmdIommuPmu.ClearUndoesAlloc | arch/x86/events/amd/iommu.c:171-203 | clearing the decoded slot of a fresh allocation restores the mask |
| AmdIommuPmu.PerfAmdIommu.GetNextAvailBnkCntr | arch/x86/events/amd/iommu.c:160-185 | sets the first free slot's bit and returns its code, or -ENOSPC with the mask unchanged |
| AmdIommuPmu.PerfAmdIommu.ClearAvailBnkCntr | arch/x86/events/amd/iommu.c:187-207 | bank > max_banks or cntr > max_counters is -EINVAL; otherwise the slot's bit is cleared |
| AmdIommuPmu.ConfigRoundTrip | arch/x86/events/amd/iommu.c:30-33 | csource, devid, pasid and domid decode back from the config word |
| AmdIommuPmu.ConfigFieldsCoverBits0To55 | arch/x86/events/amd/iommu.c:30-33 | the four fields are exactly bits 0-55 of config |
| AmdIommuPmu.Config1RoundTrip | arch/x86/events/amd/iommu.c:34-36 | the three masks decode back from config1 |
| AmdIommuPmu.Config1FieldsCoverBits0To47 | arch/x86/events/amd/iommu.c:34-36 | the three masks are exactly bits 0-47 of config1 |
| AmdIommuPmu.MatchRegLayout | arch/x86/events/amd/iommu.c:255-257 | value in bits 0-15, mask in bits 32-47, bit 31 set exactly when either is non-zero, nothing else |
| AmdIommuPmu.EnableEventWrites | arch/x86/events/amd/iommu.c:242-272 | four writes for the event's devid, bank and counter: counter source with csource, then the devid, pasid and domid match registers |
| AmdIommuPmu.EnableEventDevidMatch | arch/x86/events/amd/iommu.c:255-259 | the devid match register holds the devid and its mask, enabled exactly when either is non-zero |
| AmdIommuPmu.EnableEventPasidMatch | arch/x86/events/amd/iommu.c:261-265 | the same for the PASID and its mask |
| AmdIommuPmu.EnableEventDomidMatch | arch/x86/events/amd/iommu.c:267-271 | the same for the domain ID and its mask |
| AmdIommuPmu.CounterValue | arch/x86/events/amd/iommu.c:315-316 | the corrected mask keeps the 48 counter bits |
| AmdIommuPmu.Centered48 | arch/x86/events/amd/iommu.c:326-328 | the reference delta lies in [-2^47, 2^47) and differs from the raw difference by a multiple of 2^48 |
| AmdIommuPmu.DeltaIsCentered48BitDifference | arch/x86/events/amd/iommu.c:326-328 | the shift-left, subtract, arithmetic-shift-right delta equals the centred difference of the 48-bit values |
| AmdIommuPmu.DeltaRecoversCounter | arch/x86/events/amd/iommu.c:326-329 | prev + delta is the new counter modulo 2^48, and the delta is within ±2^47 |
| AmdIommuPmu.DeltaOfForwardCount | arch/x86/events/amd/iommu.c:326-328 | a counter that moved forward without wrapping adds exactly the distance |
| AmdIommuPmu.DeltaOfWrappedCount | arch/x86/events/amd/iommu.c:326-328 | a counter that wrapped past 2^48 adds the distance across the wrap |
| AmdIommuPmu.CounterMaskAsWrittenKeepsBit48 | arch/x86/events/amd/iommu.c:316 | as written, GENMASK_ULL(48, 0) keeps bit 48, so a read of 2^48 is stored as 2^48 |
| AmdIommuPmu.CounterMaskAsWrittenSameDelta | arch/x86/events/amd/iommu.c:316-328 | the extra bit never changes the delta added to the count |
| AmdIommuPmu.EventInitStatus | arch/x86/events/amd/iommu.c:209-240 | -ENOENT exactly for another PMU's type; -EINVAL exactly for a sampling, per-task or exclude-bit event or one without a CPU; else success |
| AmdIommuPmu.IommuEvent.EventInit | arch/x86/events/amd/iommu.c:209-240 | success copies the PMU index and both config words; failure changes nothing |
| AmdIommuPmu.IommuEvent.Read | arch/x86/events/amd/iommu.c:306-330 | a failed counter read changes nothing; otherwise prev_count becomes the counter masked with GENMASK_ULL(48, 0) as written (bit 48 kept), and count grows, wrapping at 2^64, by the delta, which equals the intended 48-bit delta |
| AmdIommuPmu.IommuEvent.Stop | arch/x86/events/amd/iommu.c:332-350 | an up-to-date event is untouched; otherwise the counter source is zeroed, the event read as in Read (prev_count keeps bit 48), and marked stopped and up to date |
| AmdIommuPmu.IommuEvent.Start | arch/x86/events/amd/iommu.c:283-304 | only a stopped event starts; its state is cleared, prev_count is written back on reload, then the enable writes |
| AmdIommuPmu.IommuEvent.Add | arch/x86/events/amd/iommu.c:352-371 | the event starts stopped and up to date; -ENOSPC with no slot, else the slot's code in extra_reg, started with reload when PERF_EF_START is given |
| AmdIommuPmu.IommuEvent.Del | arch/x86/events/amd/iommu.c:373-386 | the event's state, writes, prev_count and count change exactly as Stop changes them; then its slot's bit is cleared when the decoded bank and counter pass the check, and the mask is unchanged otherwise |
| AmdIommuPmu.AddThenDel | arch/x86/events/amd/iommu.c:352-386 | adding an event and deleting it gives back the IOMMU's mask |
| AcpiGic.IndexLookup | drivers/acpi/acpi_gic.c:93-112 | index >= count is -EINVAL; otherwise the index-th entry in list order; past the list end, -EINVAL when the count matches the list, else the list head |
| AcpiGic.InitRunsOnce | drivers/acpi/acpi_gic.c:77-78 | once a positive count is stored, init changes nothing |
| AcpiGic.InitStoresParseResult | drivers/acpi/acpi_gic.c:80-90 | a parse result of 0 leaves the count; any other result, negative included, becomes the count, so an error makes the next init parse again |
| AcpiGic.LookupAfterInit | drivers/acpi/acpi_gic.c:68-112 | since entries are prepended, index k after the first init is the k-th subtable from the end; every other index is -EINVAL |
| AcpiGic.ConsistentLookupNeverListHead | drivers/acpi/acpi_gic.c:98-108 | while the count matches the list, a lookup finds the entry or returns -EINVAL |
| AcpiGic.MsiToken | drivers/acpi/acpi_gic.c:226-234 | MSI frame 0's base when non-NULL, else ITS 0's base |
| AcpiGic.MsiTokenFallsBackToIts | drivers/acpi/acpi_gic.c:185-234 | frame 0's base when there is a frame with a non-zero base, else ITS 0's base when there is an ITS, else NULL |
| AcpiGic.GicRegistry.ParseEntry | drivers/acpi/acpi_gic.c:45-71 | a bad entry is -EINVAL and an allocation failure -ENOMEM, each adding nothing; otherwise the copy is prepended |
| AcpiGic.GicRegistry.Init | drivers/acpi/acpi_gic.c:73-91 | always returns 0; the registry becomes InitSpec of the old one |
| AcpiGic.GicRegistry.Get | drivers/acpi/acpi_gic.c:93-112 | the counting list walk returns IndexLookup |
| AcpiGic.GetMsiToken | drivers/acpi/acpi_gic.c:185-234 | returns MsiToken of the two registries |
| GicVersion.VersionInitResolves | drivers/irqchip/irq-gic-acpi.c:61-112 | success exactly when the parse found distributors, the version is below RESERVED, and a version-0 distributor with redistributors could be mapped; success leaves a version in V1-V4 and keeps an explicit one |
| GicVersion.DiscoveryFollowsRedistributors | drivers/irqchip/irq-gic-acpi.c:90-108 | version 0 becomes V2 exactly without redistributors, and V3 exactly with them when PIDR2's architecture field is 3 |
| GicVersion.GicAcpi.ParseDistributor | drivers/irqchip/irq-gic-acpi.c:24-38 | a bad entry is -EINVAL and records nothing; otherwise version and base are recorded, so the last entry wins |
| GicVersion.GicAcpi.VersionInit | drivers/irqchip/irq-gic-acpi.c:61-112 | result and gic_version are those of VersionInitSpec |
| AcpiIrq.Normalised | drivers/acpi/irq.c:83-84 | V4 is compared as V3; no other version changes |
| AcpiIrq.MatchMadtSubtable | drivers/acpi/irq.c:50-94 | returns 0 or -AE_NOT_FOUND; 0 exactly for a non-distributor, a version-0 distributor, or a normalised version equal to driver_data |
| AcpiIrq.MatchClaims | drivers/acpi/irq.c:68-89 | a GICv4 distributor matches only the V3 entry; a version-0 one matches every entry; any other version matches only its own entry |
| AcpiIrq.EndOf | drivers/acpi/irq.c:102 | the walk stops at the first entry whose id[0] is 0 |
| AcpiIrq.HandlersRun | drivers/acpi/irq.c:96-110 | only handlers of entries whose parse count is positive run |
| AcpiIrq.IrqInit | drivers/acpi/irq.c:96-110 | nothing runs with ACPI disabled; otherwise the handlers of the entries before the end marker with a positive parse count, in table order |
| AcpiGsi.GetIrqType | drivers/acpi/gsi.c:22-39 | active-low gives edge-falling or level-low, active-high edge-rising or level-high; edge-both exactly for active-both edge; NONE exactly for level active-both or an unknown polarity |
| AcpiGsi.IrqTypeDeterminesTriggerAndPolarity | drivers/acpi/gsi.c:22-39 | any type other than NONE gives back the polarity and whether the trigger is edge |
| AcpiGsi.GsiToIrqResult | drivers/acpi/gsi.c:51-61 | 0 is -EINVAL; a non-zero IRQ is returned, negative when 2^31 or more |
| AcpiGsi.GsiToIrqPositiveIsMapping | drivers/acpi/gsi.c:51-61 | a positive result is the mapping found, and the result is never 0 |
| AcpiGsi.GsiLayer.SetIrqModel | drivers/acpi/gsi.c:117-125 | stores exactly the model, the domain token and the populate callback |
| AcpiGsi.GsiLayer.RegisterGsi | drivers/acpi/gsi.c:74-92 | no callback is -EINVAL; a callback error is returned; otherwise the mapping result |
| AcpiGsi.SetThenRegister | drivers/acpi/gsi.c:74-125 | after a controller sets its model, token and callback, registration of a GSI with any trigger and polarity returns the callback's error for GetIrqType(trigger, polarity), or the mapping when the callback succeeds |

## Findings

The operations run the code as written: NumaChipPci.Init stores the
as-written limit, Prepared rewrites IO windows as written, IommuEvent.Read
keeps bit 48, DevFindItsId lets idx == its_count through, and ParseMcfg
counts with the wrapping subtraction. Each corrected member is the evidently
intended behaviour, with its properties proved beside the as-written one.

| source | as written | input that shows it | evidently intended | confidence | as-written member | corrected member |
|---|---|---|---|---|---|---|
| drivers/acpi/iort.c:220 | `idx > its_count` rejects only indexes past the count | idx == its_count reads identifiers[its_count], one past the array | reject idx >= its_count | high, not executed | Iort.ItsIdentifierAsWritten, Iort.ItsCountIndexReadsPastEnd | Iort.ItsIdentifier |
| arch/arm64/kernel/pci.c:227 | IO window length is end - start | window 0x3eff0000-0x3effffff at port 0 is rewritten to ports 0-0xfffe | length resource_size (end - start + 1) | high, not executed | Arm64Pci.IoSetupAsWritten, Arm64Pci.IoSetupAsWrittenLosesAPort | Arm64Pci.IoSetupFor |
| arch/arm64/kernel/pci.c:244 | pci_remap_iospace is given the port as the CPU address | the same window gets a remap of CPU address 0 instead of 0x3eff0000 | remap the registered CPU address | high, not executed | Arm64Pci.IoSetupAsWritten, Arm64Pci.IoSetupAsWrittenLosesAPort | Arm64Pci.IoSetupFor |
| arch/x86/events/amd/iommu.c:316 | GENMASK_ULL(48, 0) keeps 49 bits for a 48-bit counter | a counter read of 2^48 is stored in prev_count as 2^48, not 0 | GENMASK_ULL(47, 0) | medium, not executed | AmdIommuPmu.CounterValueAsWritten, AmdIommuPmu.CounterMaskAsWrittenKeepsBit48 | AmdIommuPmu.CounterValue |
| drivers/acpi/mcfg.c:50 | the bytes after the header are header->length - sizeof(struct acpi_table_mcfg) in unsigned long | a 40-byte table: the remainder is 2^64 - 4, the loop counts 2^60 - 1 records into an int that wraps to -1 (C leaves the overflow undefined), and the record loop runs while i < 2^64 - 1, reading past the table | no records in a table shorter than its header | medium, not executed | Mcfg.EntryCountAsWritten, Mcfg.ShortTableCountWraps | Mcfg.EntryCount |
| arch/x86/pci/numachip.c:104 | limit = PCI_DEVFN(0x18 + size + 1, 0) with the slot masked to 5 bits | fabric size 7 gives slot 0x20, devfn 0, so every device on bus 0 is filtered | a limit past the last northbridge | medium, not executed | NumaChip.NumachipLimitAsWritten, NumaChip.FullFabricLimitBlocksBusZero | NumaChip.NumachipLimit |

## Left out

- Locking is left out: RCU, the region-list mutex and the PMU spinlock. Each operation is modelled as atomic and sequential.
- Kernel plumbing is left out: initcalls, exports, logging, sysfs attributes, and PMU registration and teardown (iommu.c:388-505).
- kzalloc/kfree become success flags, and the memory they manage is not modelled.
- The undersized `kzalloc(sizeof(pointer))` in the GIC subtable handlers is not modelled. It is a memory-layout error outside a value-level model.
- MMIO and hardware calls are inputs to the model. These are readb/readw/readl/writel, ioremap/iounmap, `amd_iommu_pc_get_counter`/`set_reg`/`set_counter`, and the GICD_PIDR2 read. The PMU's register writes are recorded as a log of calls.
- Foreign enumeration and IRQ-domain APIs are inputs as well:
  - `acpi_table_parse_madt`/`acpi_parse_entries` supply counts and the list of accepted subtables;
  - `irq_find_host`, `irq_find_mapping` and `irq_create_acpi_mapping` supply results;
  - `pci_register_io_range`, `pci_address_to_pio` and `pci_remap_iospace` are function parameters;
  - `acpi_pci_root_create` supplies the created bus.
- `acpi_unregister_gsi` only calls IRQ-domain code, so it has no model.
- `pcibios_align_resource` returns the resource start unchanged, so it has no model. The same goes for the other empty pcibios hooks.
- Iort.DevCallback: the named-component branch is an abstract predicate on the device's name. The model leaves out the `acpi_get_name` result inversion and the string buffer.
- Iort.TranslateDevToDevid, Iort.DevFindItsId, Iort.FindDevId, Iort.FindPciId: parent walks carry a ghost fuel bound. Their contracts assume that the parent chain ends, which the source does not check.
- Iort.DevFindItsId: for idx == its_count the result is ReadPastEnd. The word read past the identifier array is not modelled.
- AcpiGic.TokenOf: a lookup left at the list head reads memory beside the list head in the source. The model gives no token for it.
- AcpiGic: `acpi_gic_get_num_msi_frame` and `acpi_gic_get_num_its` are not modelled separately. They only return the count field.
- AcpiIrq.IrqInit: the handler call `acpi_table_parse` is recorded as the entry's handler index. The parse counts are inputs, one per table entry.
- AmdIommuPmu.PerfAmdIommu: `1ULL << shift` for a shift of 64 or more takes the x86 shift count modulo 64. C leaves that case undefined.
- AmdIommuPmu.IommuEvent.Stop and Del ignore their flags, as the source does.
- The declaration headers (`include/linux/iort.h`, `include/acpi/acpi_gic.h`, `include/linux/acpi_irq.h`, `arch/x86/include/asm/perf/amd/iommu.h`) are not part of this model. Their prototypes partly disagree with the definitions.
- `drivers/irqchip/irqchip.c` and `drivers/irqchip/irq-gic-v3-its-platform-msi.c` are not part of this model. They hold linker-table dispatch and IRQ-domain glue.
