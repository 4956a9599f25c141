/** The IORT (IO Remapping Table, ARM DEN 0049A) ID-translation engine of
    drivers/acpi/iort.c: the append-only registry of ITS domain tokens, the
    bounds-checked scan over the table's node array, the one-step parent
    lookup, the upstream walk that rewrites a requester ID through ID range
    mappings until it reaches an ITS group, and the lookups built on them.

    The firmware table is read-only. Node "pointers" are byte offsets from the
    start of the table (the source adds them to the table's base address);
    `nodeAt` decodes the bytes at any offset as a node, so a node reached
    through a parent reference outside the table is still a (garbage) node,
    exactly as in the source, which does not bounds-check parent references. */
module Iort {
  import opened Kernel

  // Node types of the IORT (enum acpi_iort_node_type).
  const NODE_ITS_GROUP: u8 := 0
  const NODE_NAMED_COMPONENT: u8 := 1
  const NODE_PCI_ROOT_COMPLEX: u8 := 2
  const NODE_SMMU: u8 := 3
  const NODE_SMMU_V3: u8 := 4

  /** One ID mapping: IDs input_base ..= input_base + id_count map to
      output_base onwards, in the node at output_reference. Bit 0 of flags
      (ACPI_IORT_ID_SINGLE_MAPPING) marks a single mapping, which carries the
      node's own endpoint ID in output_base. */
  datatype IdMapping = IdMapping(inputBase: u32, idCount: u32, outputBase: u32,
                                 outputReference: u32, flags: u32)

  predicate IsSingle(m: IdMapping) { m.flags % 2 == 1 }

  /** A node header with its mapping array (mapping_count is the length of
      `mappings`) and the three type-specific payload readings the code uses:
      the root complex's PCI segment, the named component's device name and the
      ITS group's identifier array (its_count is its length). */
  datatype Node = Node(nodeType: u8, length: u16, mappingOffset: u32,
                       mappings: seq<IdMapping>, pciSegment: u32,
                       deviceName: string, itsIdentifiers: seq<u32>)

  /** The table header fields the scan reads, and the decoded node at each offset. */
  datatype Table = Table(length: u32, nodeOffset: u32, nodeCount: u32, nodeAt: nat -> Node)

  // ---------------------------------------------------------------------
  // Domain token registry (iort_register_domain_token / iort_find_msi_domain_token)

  /** An opaque `void *` domain token; 0 is NULL. */
  type Token = nat
  const NULL_TOKEN: Token := 0

  datatype MsiChip = MsiChip(translationId: u32, domainToken: Token)

  /** The token of the first chip in list order with this translation ID, NULL if none. */
  function TokenOf(chips: seq<MsiChip>, id: u32): Token
  {
    if chips == [] then NULL_TOKEN
    else if chips[0].translationId == id then chips[0].domainToken
    else TokenOf(chips[1..], id)
  }

  predicate FirstWithId(chips: seq<MsiChip>, id: u32, i: int)
  {
    0 <= i < |chips| && chips[i].translationId == id
    && forall j :: 0 <= j < i ==> chips[j].translationId != id
  }

  /** Lookup is a linear scan: NULL when no chip has the ID, otherwise the
      token of the first chip that has it. */
  lemma {:induction false} TokenOfIsFirstMatch(chips: seq<MsiChip>, id: u32)
    ensures (forall j :: 0 <= j < |chips| ==> chips[j].translationId != id) ==> TokenOf(chips, id) == NULL_TOKEN
    ensures forall i :: FirstWithId(chips, id, i) ==> TokenOf(chips, id) == chips[i].domainToken
  {
    if chips != [] {
      TokenOfIsFirstMatch(chips[1..], id);
      forall i | FirstWithId(chips, id, i) ensures TokenOf(chips, id) == chips[i].domainToken {
        if i > 0 {
          assert FirstWithId(chips[1..], id, i - 1);
        }
      }
    }
  }

  /** The list after registering every chip of `history` in order, starting
      from the empty list: each registration is prepended. */
  function Registered(history: seq<MsiChip>): seq<MsiChip>
  {
    if history == [] then [] else [history[|history| - 1]] + Registered(history[..|history| - 1])
  }

  /** The token of the most recent registration of `id` in `history`, NULL if none. */
  function LatestToken(history: seq<MsiChip>, id: u32): Token
  {
    if history == [] then NULL_TOKEN
    else if history[|history| - 1].translationId == id then history[|history| - 1].domainToken
    else LatestToken(history[..|history| - 1], id)
  }

  /** Because registration prepends, lookup returns the token of the most
      recently registered chip with that translation ID. */
  lemma {:induction false} LatestRegistrationWins(history: seq<MsiChip>, id: u32)
    ensures TokenOf(Registered(history), id) == LatestToken(history, id)
  {
    if history != [] {
      var init := history[..|history| - 1];
      LatestRegistrationWins(init, id);
      assert ([history[|history| - 1]] + Registered(init))[1..] == Registered(init);
    }
  }

  /** The global iort_msi_chip_list. */
  class MsiChipRegistry {
    var chips: seq<MsiChip>

    constructor ()
      ensures chips == []
    {
      chips := [];
    }

    /** kzalloc's outcome is `allocOk`; on failure the list is unchanged. The
        `int` ID is stored in a u32 field. */
    method RegisterDomainToken(translationId: int, token: Token, allocOk: bool) returns (r: Status)
      modifies this
      ensures allocOk ==> r == Success && chips == [MsiChip(U32(translationId), token)] + old(chips)
      ensures !allocOk ==> r == Failure(ENOMEM) && chips == old(chips)
    {
      if !allocOk {
        return Failure(ENOMEM);
      }
      chips := [MsiChip(U32(translationId), token)] + chips;
      return Success;
    }

    /** The `int` argument is compared with the u32 field after conversion to unsigned. */
    method FindMsiDomainToken(translationId: int) returns (token: Token)
      ensures token == TokenOf(chips, U32(translationId))
    {
      var id := U32(translationId);
      var i := 0;
      while i < |chips|
        invariant 0 <= i <= |chips|
        invariant TokenOf(chips[i..], id) == TokenOf(chips, id)
      {
        assert chips[i..][1..] == chips[i + 1..];
        if chips[i].translationId == id {
          return chips[i].domainToken;
        }
        i := i + 1;
      }
      return NULL_TOKEN;
    }
  }

  // ---------------------------------------------------------------------
  // Node scan (iort_scan_node)

  /** Offset of the k-th node of the array: each step adds the node's own length. */
  function NodeOffset(t: Table, k: nat): nat
  {
    if k == 0 then t.nodeOffset
    else NodeOffset(t, k - 1) + t.nodeAt(NodeOffset(t, k - 1)).length
  }

  /** The scan accepts a node of the requested type whose callback succeeds. */
  predicate Hit(t: Table, ty: int, cb: Node -> bool, p: nat)
  {
    t.nodeAt(p).nodeType == ty && cb(t.nodeAt(p))
  }

  /** The scan from node number i at offset p: stop after node_count nodes, or
      as soon as the node pointer reaches the table end. */
  function ScanFrom(t: Table, ty: int, cb: Node -> bool, p: nat, i: nat): (r: Option<nat>)
    requires i <= t.nodeCount
    ensures r.Some? ==> r.value < t.length && Hit(t, ty, cb, r.value)
    decreases t.nodeCount - i
  {
    if i == t.nodeCount then None
    else if p >= t.length then None
    else if Hit(t, ty, cb, p) then Some(p)
    else ScanFrom(t, ty, cb, p + t.nodeAt(p).length, i + 1)
  }

  /** iort_scan_node: NULL when there is no table. A node returned always lies
      before the table end and matches. */
  function Scan(table: Option<Table>, ty: int, cb: Node -> bool): (r: Option<nat>)
    ensures r.Some? ==> table.Some? && r.value < table.value.length && Hit(table.value, ty, cb, r.value)
  {
    match table
    case None => None
    case Some(t) => ScanFrom(t, ty, cb, t.nodeOffset, 0)
  }

  /** Every node before the k-th lies inside the table and is not accepted. */
  predicate MissesBefore(t: Table, ty: int, cb: Node -> bool, k: nat)
  {
    forall j :: 0 <= j < k ==> NodeOffset(t, j) < t.length && !Hit(t, ty, cb, NodeOffset(t, j))
  }

  lemma {:induction false} ScanSkipsMisses(t: Table, ty: int, cb: Node -> bool, i: nat, k: nat)
    requires i <= k <= t.nodeCount
    requires forall j :: i <= j < k ==> NodeOffset(t, j) < t.length && !Hit(t, ty, cb, NodeOffset(t, j))
    ensures ScanFrom(t, ty, cb, NodeOffset(t, i), i) == ScanFrom(t, ty, cb, NodeOffset(t, k), k)
    decreases k - i
  {
    if i < k {
      ScanSkipsMisses(t, ty, cb, i + 1, k);
    }
  }

  /** The scan returns the first accepted node among the first node_count, when
      every node before it lies inside the table. */
  lemma ScanReturnsFirstHit(t: Table, ty: int, cb: Node -> bool, k: nat)
    requires k < t.nodeCount && MissesBefore(t, ty, cb, k)
    requires NodeOffset(t, k) < t.length && Hit(t, ty, cb, NodeOffset(t, k))
    ensures Scan(Some(t), ty, cb) == Some(NodeOffset(t, k))
  {
    ScanSkipsMisses(t, ty, cb, 0, k);
  }

  /** The scan returns NULL as soon as the node pointer reaches the table end. */
  lemma ScanStopsAtTableEnd(t: Table, ty: int, cb: Node -> bool, k: nat)
    requires k < t.nodeCount && MissesBefore(t, ty, cb, k)
    requires NodeOffset(t, k) >= t.length
    ensures Scan(Some(t), ty, cb) == None
  {
    ScanSkipsMisses(t, ty, cb, 0, k);
  }

  /** The scan looks at no more than node_count nodes. */
  lemma ScanStopsAfterNodeCount(t: Table, ty: int, cb: Node -> bool)
    requires MissesBefore(t, ty, cb, t.nodeCount)
    ensures Scan(Some(t), ty, cb) == None
  {
    ScanSkipsMisses(t, ty, cb, 0, t.nodeCount);
  }

  lemma {:induction false} ScanFromIsFirstHit(t: Table, ty: int, cb: Node -> bool, i: nat)
    requires i <= t.nodeCount && MissesBefore(t, ty, cb, i)
    ensures match ScanFrom(t, ty, cb, NodeOffset(t, i), i)
            case None => true
            case Some(p) => exists k :: i <= k < t.nodeCount && p == NodeOffset(t, k) && MissesBefore(t, ty, cb, k)
    decreases t.nodeCount - i
  {
    if i < t.nodeCount && NodeOffset(t, i) < t.length && !Hit(t, ty, cb, NodeOffset(t, i)) {
      ScanFromIsFirstHit(t, ty, cb, i + 1);
    }
  }

  /** Conversely, whatever the scan returns is the k-th node for some k below
      node_count, and every node before it was inside the table and missed. */
  lemma ScanResultIsFirstHit(t: Table, ty: int, cb: Node -> bool)
    ensures match Scan(Some(t), ty, cb)
            case None => true
            case Some(p) => exists k :: 0 <= k < t.nodeCount && p == NodeOffset(t, k) && MissesBefore(t, ty, cb, k)
  {
    ScanFromIsFirstHit(t, ty, cb, 0);
  }

  method ScanNode(table: Option<Table>, ty: int, cb: Node -> bool) returns (node: Option<nat>)
    ensures node == Scan(table, ty, cb)
  {
    if table.None? {
      return None;
    }
    var t := table.value;
    var p: nat := t.nodeOffset;
    var i: nat := 0;
    while i < t.nodeCount
      invariant i <= t.nodeCount
      invariant ScanFrom(t, ty, cb, p, i) == Scan(table, ty, cb)
    {
      if p >= t.length {
        return None;
      }
      var n := t.nodeAt(p);
      if n.nodeType == ty {
        if cb(n) {
          return Some(p);
        }
      }
      p := p + n.length;
      i := i + 1;
    }
    return None;
  }

  // ---------------------------------------------------------------------
  // Parent step (iort_find_parent_node)

  /** "No mapping array": mapping_offset or mapping_count is zero. */
  predicate HasMappingArray(n: Node)
  {
    n.mappingOffset != 0 && |n.mappings| != 0
  }

  /** The parent is named by the FIRST mapping's output reference, whichever
      mapping a translation used; a zero reference is a firmware bug and is
      never followed. */
  function FindParentNode(t: Table, node: Option<nat>): (parent: Option<nat>)
    ensures parent.Some? <==> node.Some? && HasMappingArray(t.nodeAt(node.value))
                              && t.nodeAt(node.value).mappings[0].outputReference != 0
    ensures parent.Some? ==> parent.value == t.nodeAt(node.value).mappings[0].outputReference
  {
    match node
    case None => None
    case Some(p) =>
      var n := t.nodeAt(p);
      if !HasMappingArray(n) then None
      else if n.mappings[0].outputReference == 0 then None
      else Some(n.mappings[0].outputReference)
  }

  /** The parent chain from p reaches an ITS group, or a failing parent step,
      within `fuel` steps. The source loops without a bound; the model takes
      this as a precondition with a ghost bound, which never changes a result
      (TranslateFuelIrrelevant). */
  predicate Ends(t: Table, p: nat, fuel: nat)
    decreases fuel
  {
    t.nodeAt(p).nodeType == NODE_ITS_GROUP
    || FindParentNode(t, Some(p)).None?
    || (fuel > 0 && Ends(t, FindParentNode(t, Some(p)).value, fuel - 1))
  }

  // ---------------------------------------------------------------------
  // Requester ID translation (iort_translate_dev_to_devid)

  /** The inclusive range check with the u32 sum of base and count. */
  predicate InRange(m: IdMapping, id: u32)
  {
    m.inputBase <= id && id <= U32(m.inputBase + m.idCount)
  }

  /** A mapping the translation may apply: not a single mapping, id in range. */
  predicate Candidate(m: IdMapping, id: u32)
  {
    !IsSingle(m) && InRange(m, id)
  }

  /** output_base + (id - input_base), in u32 arithmetic. */
  function Apply(m: IdMapping, id: u32): u32
    requires m.inputBase <= id
  {
    U32(m.outputBase + (id - m.inputBase))
  }

  function MapIdFrom(ms: seq<IdMapping>, id: u32, i: nat): Option<u32>
    requires i <= |ms|
    decreases |ms| - i
  {
    if i == |ms| then None
    else if Candidate(ms[i], id) then Some(Apply(ms[i], id))
    else MapIdFrom(ms, id, i + 1)
  }

  /** One translation step at a node: the first candidate mapping in array order. */
  function MapId(ms: seq<IdMapping>, id: u32): Option<u32>
  {
    MapIdFrom(ms, id, 0)
  }

  /** Mapping k is the first candidate for `id` at or after index i. */
  predicate FirstCandidate(ms: seq<IdMapping>, id: u32, i: nat, k: nat)
  {
    i <= k < |ms| && Candidate(ms[k], id) && forall j :: i <= j < k ==> !Candidate(ms[j], id)
  }

  lemma {:induction false} MapIdFromAt(ms: seq<IdMapping>, id: u32, i: nat, k: nat)
    requires FirstCandidate(ms, id, i, k)
    ensures MapIdFrom(ms, id, i) == Some(Apply(ms[k], id))
    decreases k - i
  {
    if i < k {
      MapIdFromAt(ms, id, i + 1, k);
    }
  }

  lemma {:induction false} MapIdFromIsFirstCandidate(ms: seq<IdMapping>, id: u32, i: nat)
    requires i <= |ms|
    ensures MapIdFrom(ms, id, i).None? <==> forall j :: i <= j < |ms| ==> !Candidate(ms[j], id)
    ensures MapIdFrom(ms, id, i).Some? ==>
              exists k: nat :: FirstCandidate(ms, id, i, k) && MapIdFrom(ms, id, i) == Some(Apply(ms[k], id))
    decreases |ms| - i
  {
    if i < |ms| {
      if Candidate(ms[i], id) {
        assert FirstCandidate(ms, id, i, i);
      } else {
        MapIdFromIsFirstCandidate(ms, id, i + 1);
        if MapIdFrom(ms, id, i + 1).Some? {
          var k: nat :| FirstCandidate(ms, id, i + 1, k) && MapIdFrom(ms, id, i + 1) == Some(Apply(ms[k], id));
          assert FirstCandidate(ms, id, i, k);
        }
      }
    }
  }

  /** First match wins: no result exactly when no mapping is a candidate;
      otherwise the result comes from the first candidate in array order. */
  lemma MapIdIsFirstCandidate(ms: seq<IdMapping>, id: u32)
    ensures MapId(ms, id).None? <==> forall j :: 0 <= j < |ms| ==> !Candidate(ms[j], id)
    ensures MapId(ms, id).Some? ==>
              exists k: nat :: FirstCandidate(ms, id, 0, k) && MapId(ms, id) == Some(Apply(ms[k], id))
  {
    MapIdFromIsFirstCandidate(ms, id, 0);
  }

  /** The walk from node p: an ITS group returns the current ID; any other
      node needs a mapping array (else -EINVAL), a candidate mapping (else
      -ENXIO) and a parent (else -ENXIO). */
  function TranslateFrom(t: Table, p: nat, id: u32, fuel: nat): Result<u32>
    requires Ends(t, p, fuel)
    decreases fuel
  {
    var n := t.nodeAt(p);
    if n.nodeType == NODE_ITS_GROUP then Ok(id)
    else if !HasMappingArray(n) then Err(EINVAL)
    else match MapId(n.mappings, id)
      case None => Err(ENXIO)
      case Some(next) =>
        match FindParentNode(t, Some(p))
        case None => Err(ENXIO)
        case Some(q) => TranslateFrom(t, q, next, fuel - 1)
  }

  /** iort_translate_dev_to_devid: a NULL start node is -EINVAL. */
  function Translate(t: Table, node: Option<nat>, reqId: u32, fuel: nat): Result<u32>
    requires node.Some? ==> Ends(t, node.value, fuel)
  {
    match node
    case None => Err(EINVAL)
    case Some(p) => TranslateFrom(t, p, reqId, fuel)
  }

  /** The ghost bound only has to be large enough: any two sufficient bounds
      give the same translation. */
  lemma {:induction false} TranslateFuelIrrelevant(t: Table, p: nat, id: u32, f1: nat, f2: nat)
    requires Ends(t, p, f1) && Ends(t, p, f2)
    ensures TranslateFrom(t, p, id, f1) == TranslateFrom(t, p, id, f2)
    decreases f1
  {
    var n := t.nodeAt(p);
    if n.nodeType != NODE_ITS_GROUP && HasMappingArray(n) && MapId(n.mappings, id).Some?
       && FindParentNode(t, Some(p)).Some? {
      TranslateFuelIrrelevant(t, FindParentNode(t, Some(p)).value, MapId(n.mappings, id).value, f1 - 1, f2 - 1);
    }
  }

  /** One step of the walk: at a non-ITS node the first candidate mapping k
      rewrites the ID, and the walk continues at the node named by the FIRST
      mapping's reference, not by mapping k's. */
  lemma TranslateStep(t: Table, p: nat, id: u32, fuel: nat, k: nat)
    requires Ends(t, p, fuel)
    requires t.nodeAt(p).nodeType != NODE_ITS_GROUP && HasMappingArray(t.nodeAt(p))
    requires FirstCandidate(t.nodeAt(p).mappings, id, 0, k)
    requires t.nodeAt(p).mappings[0].outputReference != 0
    ensures fuel > 0
    ensures Ends(t, t.nodeAt(p).mappings[0].outputReference, fuel - 1)
    ensures TranslateFrom(t, p, id, fuel)
            == TranslateFrom(t, t.nodeAt(p).mappings[0].outputReference,
                             Apply(t.nodeAt(p).mappings[k], id), fuel - 1)
  {
    MapIdFromAt(t.nodeAt(p).mappings, id, 0, k);
  }

  /** Translation fails only with -EINVAL (no mapping array) or -ENXIO. */
  lemma {:induction false} TranslateErrors(t: Table, p: nat, id: u32, fuel: nat)
    requires Ends(t, p, fuel)
    ensures TranslateFrom(t, p, id, fuel).Err? ==>
              TranslateFrom(t, p, id, fuel).error == EINVAL || TranslateFrom(t, p, id, fuel).error == ENXIO
    decreases fuel
  {
    var n := t.nodeAt(p);
    if n.nodeType != NODE_ITS_GROUP && HasMappingArray(n) && MapId(n.mappings, id).Some?
       && FindParentNode(t, Some(p)).Some? {
      TranslateErrors(t, FindParentNode(t, Some(p)).value, MapId(n.mappings, id).value, fuel - 1);
    }
  }

  method TranslateDevToDevid(t: Table, node: Option<nat>, reqId: u32, ghost fuel: nat) returns (r: Result<u32>)
    requires node.Some? ==> Ends(t, node.value, fuel)
    ensures r == Translate(t, node, reqId, fuel)
  {
    if node.None? {
      return Err(EINVAL);
    }
    var p := node.value;
    var currId: u32 := reqId;
    ghost var f := fuel;
    while t.nodeAt(p).nodeType != NODE_ITS_GROUP
      invariant Ends(t, p, f)
      invariant TranslateFrom(t, p, currId, f) == Translate(t, node, reqId, fuel)
      decreases f
    {
      var n := t.nodeAt(p);
      if n.mappingOffset == 0 || |n.mappings| == 0 {
        return Err(EINVAL);
      }
      var i := 0;
      var found := false;
      ghost var id0: u32 := currId;
      while i < |n.mappings|
        invariant 0 <= i <= |n.mappings|
        invariant !found ==> currId == id0 && MapIdFrom(n.mappings, id0, i) == MapId(n.mappings, id0)
        invariant found ==> MapId(n.mappings, id0) == Some(currId)
      {
        var m := n.mappings[i];
        if !IsSingle(m) && currId >= m.inputBase && currId <= U32(m.inputBase + m.idCount) {
          currId := U32(m.outputBase + (currId - m.inputBase));
          found := true;
          break;
        }
        i := i + 1;
      }
      if !found {
        return Err(ENXIO);
      }
      var parent := FindParentNode(t, Some(p));
      if parent.None? {
        return Err(ENXIO);
      }
      p := parent.value;
      f := f - 1;
    }
    return Ok(currId);
  }

  // ---------------------------------------------------------------------
  // Endpoint ID lookup (iort_find_endpoint_devid)

  /** The output bases of the single mappings, in array order. */
  function SingleOutputs(ms: seq<IdMapping>): seq<u32>
  {
    if ms == [] then []
    else (if IsSingle(ms[0]) then [ms[0].outputBase] else []) + SingleOutputs(ms[1..])
  }

  lemma {:induction false} SingleOutputsAppend(a: seq<IdMapping>, b: seq<IdMapping>)
    ensures SingleOutputs(a + b) == SingleOutputs(a) + SingleOutputs(b)
  {
    if a != [] {
      assert (a + b)[0] == a[0];
      assert (a + b)[1..] == a[1..] + b;
      SingleOutputsAppend(a[1..], b);
      var h := if IsSingle(a[0]) then [a[0].outputBase] else [];
      assert SingleOutputs(a + b) == h + (SingleOutputs(a[1..]) + SingleOutputs(b));
      assert h + (SingleOutputs(a[1..]) + SingleOutputs(b)) == (h + SingleOutputs(a[1..])) + SingleOutputs(b);
    } else {
      assert a + b == b;
    }
  }

  /** The indx-th single mapping's output base, counting single mappings only. */
  function EndpointDevid(t: Table, node: Option<nat>, indx: int): Result<u32>
  {
    if node.None? || !HasMappingArray(t.nodeAt(node.value)) then Err(EINVAL)
    else
      var singles := SingleOutputs(t.nodeAt(node.value).mappings);
      if 0 <= indx < |singles| then Ok(singles[indx]) else Err(ENXIO)
  }

  method FindEndpointDevid(t: Table, node: Option<nat>, indx: int) returns (r: Result<u32>)
    ensures r == EndpointDevid(t, node, indx)
  {
    if node.None? || t.nodeAt(node.value).mappingOffset == 0 || |t.nodeAt(node.value).mappings| == 0 {
      return Err(EINVAL);
    }
    var ms := t.nodeAt(node.value).mappings;
    var i := 0;
    var curIndx := 0;
    while i < |ms|
      invariant 0 <= i <= |ms|
      invariant curIndx == |SingleOutputs(ms[..i])|
      invariant !(0 <= indx < curIndx)
    {
      SingleOutputsAppend(ms[..i], [ms[i]]);
      assert ms[..i + 1] == ms[..i] + [ms[i]];
      if IsSingle(ms[i]) {
        if indx == curIndx {
          assert ms == ms[..i] + ms[i..];
          SingleOutputsAppend(ms[..i], ms[i..]);
          return Ok(ms[i].outputBase);
        }
        curIndx := curIndx + 1;
      }
      i := i + 1;
    }
    assert ms[..i] == ms;
    return Err(ENXIO);
  }

  // ---------------------------------------------------------------------
  // The device match callback (iort_find_dev_callback)

  /** What the callback learns about the device: the PCI domain number of its
      bus, and whether a named component's device name is the device's full
      path name (an abstract predicate). */
  datatype DeviceContext = DeviceContext(domainNr: int, nameMatches: string -> bool)

  /** A root complex matches on segment number (compared as unsigned), a named
      component on its device name; other node types never match. */
  predicate DevCallback(ctx: DeviceContext, n: Node)
  {
    if n.nodeType == NODE_PCI_ROOT_COMPLEX then n.pciSegment == U32(ctx.domainNr)
    else if n.nodeType == NODE_NAMED_COMPONENT then ctx.nameMatches(n.deviceName)
    else false
  }

  function Matcher(ctx: DeviceContext): Node -> bool
  {
    n => DevCallback(ctx, n)
  }

  /** The node the scan finds for the device has a parent chain that ends. */
  predicate ScannedNodeEnds(table: Option<Table>, ty: int, ctx: DeviceContext, fuel: nat)
  {
    match Scan(table, ty, Matcher(ctx))
    case None => true
    case Some(p) => Ends(table.value, p, fuel)
  }

  // ---------------------------------------------------------------------
  // ITS identifier lookup (iort_dev_find_its_id)

  /** The ITS group reached by climbing parents from p, if the chain does not break. */
  function ClimbToItsGroup(t: Table, p: nat, fuel: nat): (g: Option<nat>)
    requires Ends(t, p, fuel)
    ensures g.Some? ==> t.nodeAt(g.value).nodeType == NODE_ITS_GROUP
    decreases fuel
  {
    if t.nodeAt(p).nodeType == NODE_ITS_GROUP then Some(p)
    else match FindParentNode(t, Some(p))
      case None => None
      case Some(q) => ClimbToItsGroup(t, q, fuel - 1)
  }

  /** A translation that succeeds ends at the ITS group that the ITS-ID
      lookup climbs to: both follow the same first-mapping parent chain. */
  lemma {:induction false} TranslationReachesItsGroup(t: Table, p: nat, id: u32, fuel: nat)
    requires Ends(t, p, fuel)
    ensures TranslateFrom(t, p, id, fuel).Ok? ==> ClimbToItsGroup(t, p, fuel).Some?
    decreases fuel
  {
    var n := t.nodeAt(p);
    if n.nodeType != NODE_ITS_GROUP && HasMappingArray(n) && MapId(n.mappings, id).Some?
       && FindParentNode(t, Some(p)).Some? {
      TranslationReachesItsGroup(t, FindParentNode(t, Some(p)).value, MapId(n.mappings, id).value, fuel - 1);
    }
  }

  /** What the source's index check does with an index: read an identifier,
      read the slot just past the identifier array, or reject it with -ENXIO
      (the lookup's other failures are -ENXIO as well). */
  datatype ItsIdRead = ItsId(id: u32) | ReadPastEnd | Rejected

  /** The index check as written: only idx > its_count is rejected. */
  function ItsIdentifierAsWritten(n: Node, idx: u32): ItsIdRead
  {
    if idx > |n.itsIdentifiers| then Rejected
    else if idx < |n.itsIdentifiers| then ItsId(n.itsIdentifiers[idx])
    else ReadPastEnd
  }

  /** The guard lets idx == its_count through, which reads identifiers[its_count],
      one past the end of the array. */
  lemma ItsCountIndexReadsPastEnd(n: Node)
    requires |n.itsIdentifiers| < 0x1_0000_0000
    ensures ItsIdentifierAsWritten(n, |n.itsIdentifiers|) == ReadPastEnd
  {
  }

  /** The corrected check rejects idx >= its_count, so every identifier read is
      inside the array; it agrees with the source for every other index. */
  function ItsIdentifier(n: Node, idx: u32): (r: Result<u32>)
    ensures r.Ok? <==> idx < |n.itsIdentifiers|
    ensures r.Ok? ==> r.value == n.itsIdentifiers[idx]
    ensures r.Err? ==> r.error == ENXIO
    ensures idx != |n.itsIdentifiers| ==>
              ItsIdentifierAsWritten(n, idx) == (if r.Ok? then ItsId(r.value) else Rejected)
  {
    if idx >= |n.itsIdentifiers| then Err(ENXIO) else Ok(n.itsIdentifiers[idx])
  }

  /** The lookup with the index check as written. */
  function ItsIdOf(table: Option<Table>, ty: int, ctx: DeviceContext, idx: u32, fuel: nat): ItsIdRead
    requires ScannedNodeEnds(table, ty, ctx, fuel)
  {
    match Scan(table, ty, Matcher(ctx))
    case None => Rejected
    case Some(p) =>
      match ClimbToItsGroup(table.value, p, fuel)
      case None => Rejected
      case Some(g) => ItsIdentifierAsWritten(table.value.nodeAt(g), idx)
  }

  /** Scan for the device's node (-ENXIO if none), climb parents to an ITS
      group (-ENXIO if the chain breaks), then apply the index check as
      written: an identifier is read for idx < its_count, the slot past the
      array for idx == its_count. */
  method DevFindItsId(table: Option<Table>, ctx: DeviceContext, nodeType: int, idx: u32, ghost fuel: nat)
    returns (r: ItsIdRead)
    requires ScannedNodeEnds(table, nodeType, ctx, fuel)
    ensures r == ItsIdOf(table, nodeType, ctx, idx, fuel)
    ensures r.ItsId? ==> exists g :: table.Some? && table.value.nodeAt(g).nodeType == NODE_ITS_GROUP
                                     && idx < |table.value.nodeAt(g).itsIdentifiers|
                                     && r.id == table.value.nodeAt(g).itsIdentifiers[idx]
    ensures r.ReadPastEnd? ==> exists g :: table.Some? && table.value.nodeAt(g).nodeType == NODE_ITS_GROUP
                                           && idx == |table.value.nodeAt(g).itsIdentifiers|
  {
    var node := ScanNode(table, nodeType, Matcher(ctx));
    if node.None? {
      return Rejected;
    }
    var t := table.value;
    var p := node.value;
    ghost var f := fuel;
    while t.nodeAt(p).nodeType != NODE_ITS_GROUP
      invariant Ends(t, p, f)
      invariant ClimbToItsGroup(t, p, f) == ClimbToItsGroup(t, node.value, fuel)
      decreases f
    {
      var parent := FindParentNode(t, Some(p));
      if parent.None? {
        return Rejected;
      }
      p := parent.value;
      f := f - 1;
    }
    var n := t.nodeAt(p);
    if idx > |n.itsIdentifiers| {
      return Rejected;
    }
    if idx == |n.itsIdentifiers| {
      return ReadPastEnd;
    }
    return ItsId(n.itsIdentifiers[idx]);
  }

  // ---------------------------------------------------------------------
  // Entry points (iort_find_dev_id, iort_find_pci_id)

  /** Named-component scan, endpoint index 0, parent step, then translation
      from the parent: the named component's own range mappings are never
      applied. */
  function DevIdOf(table: Option<Table>, ctx: DeviceContext, fuel: nat): Result<u32>
    requires ScannedNodeEnds(table, NODE_NAMED_COMPONENT, ctx, fuel)
  {
    match Scan(table, NODE_NAMED_COMPONENT, Matcher(ctx))
    case None => Err(ENXIO)
    case Some(p) =>
      match EndpointDevid(table.value, Some(p), 0)
      case Err(e) => Err(e)
      case Ok(reqId) =>
        match FindParentNode(table.value, Some(p))
        case None => Err(ENXIO)
        case Some(q) => TranslateFrom(table.value, q, reqId, fuel - 1)
  }

  method FindDevId(table: Option<Table>, ctx: DeviceContext, ghost fuel: nat) returns (r: Result<u32>)
    requires ScannedNodeEnds(table, NODE_NAMED_COMPONENT, ctx, fuel)
    ensures r == DevIdOf(table, ctx, fuel)
  {
    var node := ScanNode(table, NODE_NAMED_COMPONENT, Matcher(ctx));
    if node.None? {
      return Err(ENXIO);
    }
    var t := table.value;
    var reqId := FindEndpointDevid(t, node, 0);
    if reqId.Err? {
      return Err(reqId.error);
    }
    var parent := FindParentNode(t, node);
    if parent.None? {
      return Err(ENXIO);
    }
    r := TranslateDevToDevid(t, parent, reqId.value, fuel - 1);
  }

  /** Root-complex scan, then translation of the caller's requester ID from
      the matched root complex itself. */
  function PciIdOf(table: Option<Table>, ctx: DeviceContext, reqId: u32, fuel: nat): Result<u32>
    requires ScannedNodeEnds(table, NODE_PCI_ROOT_COMPLEX, ctx, fuel)
  {
    match Scan(table, NODE_PCI_ROOT_COMPLEX, Matcher(ctx))
    case None => Err(ENXIO)
    case Some(p) => TranslateFrom(table.value, p, reqId, fuel)
  }

  method FindPciId(table: Option<Table>, ctx: DeviceContext, reqId: u32, ghost fuel: nat) returns (r: Result<u32>)
    requires ScannedNodeEnds(table, NODE_PCI_ROOT_COMPLEX, ctx, fuel)
    ensures r == PciIdOf(table, ctx, reqId, fuel)
  {
    var node := ScanNode(table, NODE_PCI_ROOT_COMPLEX, Matcher(ctx));
    if node.None? {
      return Err(ENXIO);
    }
    r := TranslateDevToDevid(table.value, node, reqId, fuel);
  }
}
