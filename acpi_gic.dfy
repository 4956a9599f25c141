/** The GIC MSI-frame and ITS registries of drivers/acpi/acpi_gic.c: each is a
    list that MADT parsing prepends copies of subtables to, a count set once
    from the parse result, a lookup by index that walks the list, and the
    MSI token taken from frame 0 or, failing that, ITS 0. */
module AcpiGic {
  import opened Kernel

  /** The parts of an MADT GIC MSI Frame or GIC ITS (translator) subtable the
      registry keeps: its identifier and its base address. */
  datatype GicSubtable = GicSubtable(id: u32, baseAddress: u64)

  /** A registry's state: the list in list order, and acpi_num_msi or
      acpi_num_its. */
  datatype Registry = Registry(entries: seq<GicSubtable>, count: int)

  /** The result of an index lookup: the entry, -EINVAL, or, when the count
      and the list disagree, the cursor left at the list head, which is not
      an entry. */
  datatype Lookup = Found(entry: GicSubtable) | Invalid | ListHead

  function Reversed(s: seq<GicSubtable>): (r: seq<GicSubtable>)
    ensures |r| == |s| && forall k :: 0 <= k < |s| ==> r[k] == s[|s| - 1 - k]
  {
    if s == [] then [] else Reversed(s[1..]) + [s[0]]
  }

  /** acpi_gic_msi_init / acpi_gic_madt_gic_its_init as a state change.
      `accepted` is what the handler copied during the parse, in table
      order, and `ret` what the parse returned. */
  function InitSpec(s: Registry, accepted: seq<GicSubtable>, ret: int): Registry
  {
    if s.count > 0 then s
    else Registry(Reversed(accepted) + s.entries, if ret == 0 then s.count else ret)
  }

  /** acpi_gic_get_msi_frame / acpi_gic_get_its. */
  function IndexLookup(s: Registry, index: int): (r: Lookup)
    ensures r.Found? <==> index < s.count && 0 <= index < |s.entries|
    ensures r.Found? ==> r.entry == s.entries[index]
    ensures r.ListHead? <==> index < s.count && !(0 <= index < |s.entries|) && |s.entries| != s.count
  {
    if index >= s.count then Invalid
    else if 0 <= index < |s.entries| then Found(s.entries[index])
    else if |s.entries| == s.count then Invalid
    else ListHead
  }

  /** A registry whose count is the length of its list: the state a parse
      that accepted every subtable it counted leaves. */
  predicate Consistent(s: Registry)
  {
    s.count == |s.entries|
  }

  /** Init runs once: after an init that stored a positive count, init
      changes nothing, whatever the second parse would find. */
  lemma InitRunsOnce(s: Registry, a1: seq<GicSubtable>, r1: int, a2: seq<GicSubtable>, r2: int)
    requires s.count <= 0 && r1 > 0
    ensures InitSpec(s, a1, r1).count == r1
    ensures InitSpec(InitSpec(s, a1, r1), a2, r2) == InitSpec(s, a1, r1)
  {
  }

  /** A parse that finds nothing leaves the count where it was; any other
      result, a negative error included, becomes the count. After an error
      the next init parses again and puts a second copy of the subtables in
      front of the first. */
  lemma InitStoresParseResult(s: Registry, a: seq<GicSubtable>, ret: int, a2: seq<GicSubtable>, r2: int)
    requires s.count <= 0
    ensures ret == 0 ==> InitSpec(s, a, ret).count == s.count
    ensures ret != 0 ==> InitSpec(s, a, ret).count == ret
    ensures ret < 0 ==> InitSpec(InitSpec(s, a, ret), a2, r2).entries == Reversed(a2) + Reversed(a) + s.entries
  {
  }

  /** Entries are prepended: after the first init, index k is the k-th
      subtable from the end of the table, so index 0 is the last one parsed;
      every other index is -EINVAL. */
  lemma {:induction false} LookupAfterInit(accepted: seq<GicSubtable>, index: int)
    ensures var s := InitSpec(Registry([], 0), accepted, |accepted|);
            Consistent(s)
            && (0 <= index < |accepted| ==> IndexLookup(s, index) == Found(accepted[|accepted| - 1 - index]))
            && (!(0 <= index < |accepted|) ==> IndexLookup(s, index) == Invalid)
  {
    var s := InitSpec(Registry([], 0), accepted, |accepted|);
    assert s.entries == Reversed(accepted) + [];
    assert s.entries == Reversed(accepted);
  }

  /** While the count matches the list, a lookup is never left at the list
      head: it finds the entry or returns -EINVAL. */
  lemma ConsistentLookupNeverListHead(s: Registry, index: int)
    requires Consistent(s)
    ensures IndexLookup(s, index) == (if 0 <= index < |s.entries| then Found(s.entries[index]) else Invalid)
  {
  }

  /** The token of a lookup: the entry's base address, with a failed lookup
      and a zero base both NULL (0). A lookup left at the list head reads no
      subtable; the model gives no token for it. */
  function TokenOf(l: Lookup): u64
  {
    if l.Found? then l.entry.baseAddress else 0
  }

  /** acpi_gic_get_msi_token: MSI frame 0's base if that is non-NULL, else
      ITS 0's base. */
  function MsiToken(msi: Registry, its: Registry): (t: u64)
    ensures TokenOf(IndexLookup(msi, 0)) != 0 ==> t == TokenOf(IndexLookup(msi, 0))
    ensures TokenOf(IndexLookup(msi, 0)) == 0 ==> t == TokenOf(IndexLookup(its, 0))
  {
    var t := TokenOf(IndexLookup(msi, 0));
    if t != 0 then t else TokenOf(IndexLookup(its, 0))
  }

  /** With consistent registries: the token is frame 0's base when there is
      a frame with a non-zero base, else ITS 0's base when there is an ITS,
      else NULL. */
  lemma MsiTokenFallsBackToIts(msi: Registry, its: Registry)
    requires Consistent(msi) && Consistent(its)
    ensures |msi.entries| > 0 && msi.entries[0].baseAddress != 0 ==>
              MsiToken(msi, its) == msi.entries[0].baseAddress
    ensures (|msi.entries| == 0 || msi.entries[0].baseAddress == 0) && |its.entries| > 0 ==>
              MsiToken(msi, its) == its.entries[0].baseAddress
    ensures (|msi.entries| == 0 || msi.entries[0].baseAddress == 0) && |its.entries| == 0 ==>
              MsiToken(msi, its) == 0
  {
    ConsistentLookupNeverListHead(msi, 0);
    ConsistentLookupNeverListHead(its, 0);
  }

  /** msi_frame_list with acpi_num_msi, or its_list with acpi_num_its. */
  class GicRegistry {
    var entries: seq<GicSubtable>
    var count: int

    constructor ()
      ensures entries == [] && count == 0
    {
      entries := [];
      count := 0;
    }

    function State(): Registry
      reads this
    {
      Registry(entries, count)
    }

    /** acpi_parse_madt_msi / acpi_parse_madt_its: a bad entry is -EINVAL and
        a failed allocation -ENOMEM, each adding nothing; otherwise the copy
        is put at the head of the list. */
    method ParseEntry(e: GicSubtable, badEntry: bool, allocOk: bool) returns (r: int)
      modifies this
      ensures badEntry ==> r == -Code(EINVAL) && entries == old(entries)
      ensures !badEntry && !allocOk ==> r == -Code(ENOMEM) && entries == old(entries)
      ensures !badEntry && allocOk ==> r == 0 && entries == [e] + old(entries)
      ensures count == old(count)
    {
      if badEntry {
        return -Code(EINVAL);
      }
      if !allocOk {
        return -Code(ENOMEM);
      }
      entries := [e] + entries;
      return 0;
    }

    /** acpi_gic_msi_init / acpi_gic_madt_gic_its_init: returns 0 in every
        case; parses only while the count is not positive. */
    method Init(accepted: seq<GicSubtable>, ret: int) returns (r: int)
      modifies this
      ensures r == 0
      ensures State() == InitSpec(old(State()), accepted, ret)
    {
      if count > 0 {
        return 0;
      }
      entries := Reversed(accepted) + entries;
      if ret == 0 {
        return 0;
      }
      count := ret;
      return 0;
    }

    /** acpi_gic_get_msi_frame / acpi_gic_get_its: walks the list counting
        entries until the index is reached. */
    method Get(index: int) returns (r: Lookup)
      ensures r == IndexLookup(State(), index)
    {
      if index >= count {
        return Invalid;
      }
      var i := 0;
      while i < |entries|
        invariant 0 <= i <= |entries|
        invariant !(0 <= index < i)
      {
        if i == index {
          return Found(entries[i]);
        }
        i := i + 1;
      }
      if i == count {
        return Invalid;
      }
      return ListHead;
    }
  }

  /** acpi_gic_get_msi_token over the two registries. */
  method GetMsiToken(msi: GicRegistry, its: GicRegistry) returns (t: u64)
    ensures t == MsiToken(msi.State(), its.State())
  {
    var frame := msi.Get(0);
    t := TokenOf(frame);
    if t == 0 {
      var trans := its.Get(0);
      t := TokenOf(trans);
    }
  }
}
