/** The span table: publication, slot reuse, reclamation and epoch-qualified marks. */
module GcSpanTable {
  import opened Options
  import opened GcObjects
  import opened GcBitmaps
  import opened GcSpans

  const MAX_LOGICAL_SPANS: nat := 65536
  const INITIAL_EPOCH: nat := 1
  const MAX_EPOCH: nat := 0xFFFF_FFFF

  datatype LargeSpan = LargeSpan(
    spanCount: nat, objectBytes: nat, isAllocated: bool, markEpoch: Option<nat>, header: Header)

  datatype Kind =
    | SmallKind(span: SmallSpan)
    | LargeOwner(large: LargeSpan)
    | LargeContinuation(owner: nat, ordinal: nat)

  /** A vacant entry keeps its logical id and holds no storage. */
  type Table = seq<Option<Kind>>

  predicate IsSmall(t: Table, id: nat) { id < |t| && t[id].Some? && t[id].value.SmallKind? }
  predicate IsLarge(t: Table, id: nat) { id < |t| && t[id].Some? && t[id].value.LargeOwner? }

  function SlotOf(s: SmallSpan, r: Ref): Option<nat> {
    if IsSizeClass(s.slotSize) then SlotForOffset(s.slotSize, r.offset) else None
  }

  predicate PublishedIn(k: Kind, r: Ref) {
    match k
    case SmallKind(s) => SlotOf(s, r).Some? && Has(s.allocations, SlotOf(s, r).value)
    case LargeOwner(l) => r.offset == MINIMUM_SLOT_SIZE_BYTES && l.isAllocated
    case LargeContinuation(_, _) => false
  }

  predicate MarkedIn(k: Kind, epoch: nat, r: Ref) {
    match k
    case SmallKind(s) => SlotOf(s, r).Some? && s.marks.epoch == Some(epoch) && Has(s.marks.bits, SlotOf(s, r).value)
    case LargeOwner(l) => r.offset == MINIMUM_SLOT_SIZE_BYTES && l.markEpoch == Some(epoch)
    case LargeContinuation(_, _) => false
  }

  /** The reference names an initialised object. */
  predicate Published(t: Table, r: Ref) {
    r.span < |t| && t[r.span].Some? && PublishedIn(t[r.span].value, r)
  }

  /** The stored epoch is the given one and the bit is set. */
  predicate Marked(t: Table, epoch: nat, r: Ref) {
    r.span < |t| && t[r.span].Some? && MarkedIn(t[r.span].value, epoch, r)
  }

  // ----- Invariants -----

  /** An owner is followed by its continuations, in order. */
  ghost predicate LargeRange(t: Table, id: nat, l: LargeSpan) {
    && 1 <= l.spanCount && id + l.spanCount <= |t|
    && (forall k | 1 <= k < l.spanCount :: t[id + k] == Some(LargeContinuation(id, k)))
    && (l.isAllocated ==> l.header.typeId != 0)
  }

  ghost predicate EntrySound(t: Table, id: nat)
    requires id < |t|
  {
    match t[id]
    case None => true
    case Some(SmallKind(s)) => Sound(s)
    case Some(LargeOwner(l)) => LargeRange(t, id, l)
    case Some(LargeContinuation(_, _)) => true
  }

  ghost predicate TableSound(t: Table) {
    forall id | 0 <= id < |t| :: EntrySound(t, id)
  }

  /** Outside a sweep every Old span can reuse every dead slot. */
  ghost predicate TableReusable(t: Table) {
    TableSound(t) && forall id | 0 <= id < |t| && IsSmall(t, id) :: Reusable(t[id].value.span)
  }

  predicate StoredBefore(stored: Option<nat>, epoch: nat) { stored.Some? ==> stored.value <= epoch }

  /** No mark bit lies beyond the span's slots. */
  ghost predicate BitsInSpan(s: SmallSpan) { forall slot: int | Has(s.marks.bits, slot) :: slot < |s.headers| }

  ghost predicate EpochsIn(k: Kind, epoch: nat) {
    match k
    case SmallKind(s) => StoredBefore(s.marks.epoch, epoch) && BitsInSpan(s)
    case LargeOwner(l) => StoredBefore(l.markEpoch, epoch)
    case LargeContinuation(_, _) => true
  }

  /** No entry carries marks from a later epoch than the current one, or outside its slots. */
  ghost predicate EpochsStored(t: Table, epoch: nat) {
    forall id | 0 <= id < |t| && t[id].Some? :: EpochsIn(t[id].value, epoch)
  }

  // ----- Changing one entry -----

  lemma SmallReplaced(t: Table, id: nat, s': SmallSpan)
    requires TableSound(t) && IsSmall(t, id) && Sound(s')
    ensures TableSound(t[id := Some(SmallKind(s'))])
    ensures TableReusable(t) && Reusable(s') ==> TableReusable(t[id := Some(SmallKind(s'))])
  {
    hide Sound, Reusable;
    var t' := t[id := Some(SmallKind(s'))];
    forall i | 0 <= i < |t'| ensures EntrySound(t', i) {
      assert EntrySound(t, i);
    }
  }

  lemma LargeReplaced(t: Table, id: nat, l': LargeSpan)
    requires TableSound(t) && IsLarge(t, id)
    requires l'.spanCount == t[id].value.large.spanCount && l'.header == t[id].value.large.header
    requires l'.isAllocated ==> t[id].value.large.isAllocated
    ensures TableSound(t[id := Some(LargeOwner(l'))])
    ensures TableReusable(t) ==> TableReusable(t[id := Some(LargeOwner(l'))])
  {
    hide Sound, Reusable;
    var t' := t[id := Some(LargeOwner(l'))];
    forall i | 0 <= i < |t'| ensures EntrySound(t', i) {
      assert EntrySound(t, i);
      assert EntrySound(t, id);
    }
  }

  /** Distinct published references of one small span are distinct slots. */
  lemma SlotsNameRefs(s: SmallSpan, r: Ref, r': Ref)
    requires IsSizeClass(s.slotSize) && SlotOf(s, r).Some? && SlotOf(s, r) == SlotOf(s, r')
    ensures r.offset == r'.offset
  {
    var slot := SlotOf(s, r).value;
    SlotFits(s.slotSize, slot);
    OffsetBounded(s.slotSize, r.offset);
    OffsetBounded(s.slotSize, r'.offset);
    SlotOffsetRoundTrip(s.slotSize, slot, r.offset);
    SlotOffsetRoundTrip(s.slotSize, slot, r'.offset);
  }

  lemma OffsetBounded(size: nat, offset: nat)
    requires IsSizeClass(size) && SlotForOffset(size, offset).Some?
    ensures offset < SPAN_SIZE_BYTES
  {
    var relative := offset - MINIMUM_SLOT_SIZE_BYTES;
    DivisionBounds(relative, size);
    SlotFits(size, relative / size);
  }

  // ----- The table as it runs -----

  datatype ReferenceError =
    | UnknownSpan | VacantSpan | InvalidSlotBoundary | UnallocatedSlot
    | LargeOwnerOffset | LargeContinuationReference | InvalidTypeId

  datatype Verification = Verified(header: Header) | Rejected(error: ReferenceError)

  /** The checks every dereference makes. */
  function VerifyReference(t: Table, r: Ref): Verification {
    if r.span >= |t| then Rejected(UnknownSpan)
    else if t[r.span].None? then Rejected(VacantSpan)
    else match t[r.span].value
      case SmallKind(s) =>
        if SlotOf(s, r).None? then Rejected(InvalidSlotBoundary)
        else if !Has(s.allocations, SlotOf(s, r).value) then Rejected(UnallocatedSlot)
        else if SlotOf(s, r).value >= |s.headers| then Rejected(InvalidSlotBoundary) // no storage there
        else if s.headers[SlotOf(s, r).value].typeId == 0 then Rejected(InvalidTypeId)
        else Verified(s.headers[SlotOf(s, r).value])
      case LargeOwner(l) =>
        if r.offset != MINIMUM_SLOT_SIZE_BYTES then Rejected(LargeOwnerOffset)
        else if !l.isAllocated then Rejected(UnallocatedSlot)
        else if l.header.typeId == 0 then Rejected(InvalidTypeId)
        else Verified(l.header)
      case LargeContinuation(_, _) => Rejected(LargeContinuationReference)
  }

  /** Exactly the published references verify; in particular a free-list link is never read as a header. */
  lemma VerifiedIffPublished(t: Table, r: Ref)
    requires TableSound(t)
    ensures VerifyReference(t, r).Verified? <==> Published(t, r)
    ensures VerifyReference(t, r) != Rejected(InvalidTypeId)
  {
    hide Has, SlotForOffset, IsFreeList, IsSizeClass;
    if r.span < |t| {
      assert EntrySound(t, r.span);
    }
  }

  function RefAt(id: nat, size: nat, slot: nat): Ref { Ref(id, MINIMUM_SLOT_SIZE_BYTES + slot * size) }

  lemma RefNamesSlot(id: nat, s: SmallSpan, slot: nat, r: Ref)
    requires IsSizeClass(s.slotSize) && slot < SlotCount(s.slotSize) && r.span == id
    ensures SlotOf(s, r) == Some(slot) <==> r == RefAt(id, s.slotSize, slot)
  {
    SlotFits(s.slotSize, slot);
    var named := RefAt(id, s.slotSize, slot);
    SlotOffsetRoundTrip(s.slotSize, slot, named.offset);
    if SlotOf(s, r) == Some(slot) {
      SlotsNameRefs(s, r, named);
    }
  }

  /** Where no slot of the span begins. */
  ghost predicate BetweenSlots(id: nat, size: nat, r: Ref)
    requires IsSizeClass(size)
  {
    forall slot: nat | slot < SlotCount(size) :: r != RefAt(id, size, slot)
  }

  lemma BetweenSlotsIff(id: nat, s: SmallSpan, r: Ref)
    requires IsSizeClass(s.slotSize) && r.span == id
    ensures SlotOf(s, r).None? <==> BetweenSlots(id, s.slotSize, r)
  {
    hide SlotCount, IsSizeClass;
    forall slot: nat | slot < SlotCount(s.slotSize) ensures SlotOf(s, r) == Some(slot) <==> r == RefAt(id, s.slotSize, slot) {
      RefNamesSlot(id, s, slot, r);
    }
    assert SlotOf(s, r).Some? ==> SlotOf(s, r).value < SlotCount(s.slotSize);
  }

  /** The cause of each rejection. */
  lemma RejectionCauses(t: Table, r: Ref)
    requires TableSound(t)
    ensures VerifyReference(t, r) == Rejected(UnknownSpan) <==> r.span >= |t|
    ensures VerifyReference(t, r) == Rejected(VacantSpan) <==> r.span < |t| && t[r.span].None?
    ensures VerifyReference(t, r) == Rejected(InvalidSlotBoundary) <==>
      IsSmall(t, r.span) && IsSizeClass(t[r.span].value.span.slotSize) && BetweenSlots(r.span, t[r.span].value.span.slotSize, r)
    ensures VerifyReference(t, r) == Rejected(LargeOwnerOffset) <==> IsLarge(t, r.span) && r.offset != MINIMUM_SLOT_SIZE_BYTES
    ensures VerifyReference(t, r) == Rejected(LargeContinuationReference) <==>
      r.span < |t| && t[r.span].Some? && t[r.span].value.LargeContinuation?
    ensures VerifyReference(t, r) == Rejected(UnallocatedSlot) <==>
      !Published(t, r)
      && if IsSmall(t, r.span)
         then IsSizeClass(t[r.span].value.span.slotSize) && !BetweenSlots(r.span, t[r.span].value.span.slotSize, r)
         else IsLarge(t, r.span) && r.offset == MINIMUM_SLOT_SIZE_BYTES
  {
    hide Has, SlotOf, IsFreeList, IsSizeClass, SlotCount, BetweenSlots;
    if r.span < |t| {
      TableEntry(t, r.span);
      if IsSmall(t, r.span) {
        var s := t[r.span].value.span;
        SpanBounds(s);
        BetweenSlotsIff(r.span, s, r);
      }
    }
  }

  /** One small span changes; the mark bits do not. */
  ghost predicate SpanChanged(t: Table, t': Table, id: nat, s': SmallSpan) {
    && IsSmall(t, id) && t' == t[id := Some(SmallKind(s'))]
    && s'.slotSize == t[id].value.span.slotSize && s'.marks == t[id].value.span.marks
    && |s'.headers| == |t[id].value.span.headers|
  }

  lemma MarksUntouched(t: Table, t': Table, id: nat, s': SmallSpan)
    requires SpanChanged(t, t', id, s')
    ensures forall epoch, r :: Marked(t', epoch, r) <==> Marked(t, epoch, r)
    ensures forall epoch :: EpochsStored(t, epoch) ==> EpochsStored(t', epoch)
  {
    hide Has, SlotForOffset, IsSizeClass;
    forall epoch | EpochsStored(t, epoch) ensures EpochsStored(t', epoch) {
      forall i | 0 <= i < |t'| && t'[i].Some? ensures EpochsIn(t'[i].value, epoch) {
        assert EpochsIn(t[i].value, epoch);
      }
    }
  }

  /** Publishing a slot adds one reference and disturbs no other object. */
  lemma SlotPublished(t: Table, t': Table, id: nat, s': SmallSpan, slot: nat, h: Header)
    requires SpanChanged(t, t', id, s') && Sound(t[id].value.span) && h.typeId != 0
    requires slot < |t[id].value.span.headers|
    requires s'.headers == t[id].value.span.headers[slot := h]
    requires s'.allocations == Insert(t[id].value.span.allocations, slot)
    ensures forall r :: Published(t', r) <==> Published(t, r) || r == RefAt(id, s'.slotSize, slot)
    ensures VerifyReference(t', RefAt(id, s'.slotSize, slot)) == Verified(h)
    ensures forall r | Published(t, r) && r != RefAt(id, s'.slotSize, slot) ::
              VerifyReference(t', r) == VerifyReference(t, r)
  {
    hide Has, SlotForOffset, IsSizeClass, SlotCount, Insert, IsFreeList;
    forall r: Ref | r.span == id
      ensures SlotOf(s', r) == Some(slot) <==> r == RefAt(id, s'.slotSize, slot)
    {
      RefNamesSlot(id, s', slot, r);
    }
    assert RefAt(id, s'.slotSize, slot).span == id;
  }

  /** Withdrawing a slot removes one reference and disturbs no other object, whatever the dead bytes hold. */
  lemma SlotWithdrawn(t: Table, t': Table, id: nat, s': SmallSpan, slot: nat)
    requires SpanChanged(t, t', id, s') && Sound(t[id].value.span)
    requires slot < |t[id].value.span.headers| == |s'.headers|
    requires forall i | 0 <= i < |s'.headers| && i != slot :: s'.headers[i] == t[id].value.span.headers[i]
    requires s'.allocations == Remove(t[id].value.span.allocations, slot)
    ensures forall r :: Published(t', r) <==> Published(t, r) && r != RefAt(id, s'.slotSize, slot)
    ensures forall r | Published(t', r) :: VerifyReference(t', r) == VerifyReference(t, r)
  {
    hide Has, SlotForOffset, IsSizeClass, SlotCount, Remove, IsFreeList;
    forall r: Ref | r.span == id
      ensures SlotOf(s', r) == Some(slot) <==> r == RefAt(id, s'.slotSize, slot)
    {
      RefNamesSlot(id, s', slot, r);
    }
    assert RefAt(id, s'.slotSize, slot).span == id;
  }

  /** Rewriting the bytes of dead slots disturbs no object. */
  ghost predicate OnlyLinksChanged(s: SmallSpan, s': SmallSpan) {
    && s'.slotSize == s.slotSize && s'.space == s.space && s'.allocations == s.allocations && s'.marks == s.marks
    && s'.bumpCursor == s.bumpCursor && s'.allocatedSlots == s.allocatedSlots && |s'.headers| == |s.headers|
    && forall i | 0 <= i < |s.headers| && Has(s.allocations, i) :: s'.headers[i] == s.headers[i]
  }

  /** The same live slots with the same headers. */
  ghost predicate LiveUnchanged(s: SmallSpan, s': SmallSpan) {
    && s'.slotSize == s.slotSize && s'.allocations == s.allocations && |s'.headers| == |s.headers|
    && forall i | 0 <= i < |s.headers| && Has(s.allocations, i) :: s'.headers[i] == s.headers[i]
  }

  lemma LinksRewritten(t: Table, t': Table, id: nat, s': SmallSpan)
    requires SpanChanged(t, t', id, s') && LiveUnchanged(t[id].value.span, s')
    ensures forall r :: Published(t', r) <==> Published(t, r)
    ensures forall r | Published(t, r) :: VerifyReference(t', r) == VerifyReference(t, r)
  {
    hide Has, SlotForOffset, IsSizeClass, SlotCount;
  }

  /** The same kind of span, of the same size class and generation. */
  predicate SameCohort(k: Kind, k': Kind) {
    match k
    case SmallKind(s) => k'.SmallKind? && k'.span.slotSize == s.slotSize && k'.span.space == s.space
    case LargeOwner(_) => k'.LargeOwner?
    case LargeContinuation(_, _) => false
  }

  predicate OneSpanTouched(t: Table, t': Table, id: nat) {
    IsSmall(t, id) && IsSmall(t', id) && t' == t[id := t'[id]] && SameCohort(t[id].value, t'[id].value)
  }

  /** How many bits are marked, if they belong to the given epoch. */
  ghost function MarkedSlots(s: SmallSpan, epoch: nat): nat {
    if s.marks.epoch == Some(epoch) then |Slots(s.marks.bits)| else 0
  }

  datatype AllocationError =
    | NoSuchSpan | VacantEntry | SpanFull | SizeClassTooSmall | SurvivorIsNotAllocatable

  datatype Allocation = Allocated(reference: Ref) | Refused(error: AllocationError)

  /** Exactly one more object, with the given header, and every other object as it was. */
  ghost predicate OneMore(t: Table, t': Table, added: Ref, h: Header) {
    && !Published(t, added) && VerifyReference(t', added) == Verified(h)
    && (forall r :: Published(t', r) <==> Published(t, r) || r == added)
    && (forall r | Published(t, r) :: VerifyReference(t', r) == VerifyReference(t, r))
  }

  /** Exactly one object fewer, and every other object as it was. */
  ghost predicate OneFewer(t: Table, t': Table, removed: Ref) {
    && Published(t, removed)
    && (forall r :: Published(t', r) <==> Published(t, r) && r != removed)
    && (forall r | Published(t', r) :: VerifyReference(t', r) == VerifyReference(t, r))
  }

  ghost predicate SameObjects(t: Table, t': Table) {
    && (forall r :: Published(t', r) <==> Published(t, r))
    && (forall r | Published(t, r) :: VerifyReference(t', r) == VerifyReference(t, r))
  }

  /** The object fits an existing Old span. */
  predicate FitsOld(t: Table, id: nat, required: nat) {
    IsSmall(t, id) && t[id].value.span.space == Old && required <= t[id].value.span.slotSize
  }

  predicate CanAllocate(t: Table, id: nat, required: nat) {
    IsSmall(t, id) && required <= t[id].value.span.slotSize && HasFreeSlot(t[id].value.span)
  }

  /** Which slot an allocation takes: a dead one below the cursor if an Old span has any, or else the one at the cursor. */
  ghost predicate TakenSlot(before: SmallSpan, after: SmallSpan, r: Ref) {
    if before.space == Old && exists slot: nat :: slot < before.bumpCursor && !Has(before.allocations, slot)
    then
      && after.bumpCursor == before.bumpCursor
      && exists slot: nat :: slot < before.bumpCursor && !Has(before.allocations, slot)
                             && r.offset == MINIMUM_SLOT_SIZE_BYTES + slot * before.slotSize
    else
      && after.bumpCursor == before.bumpCursor + 1
      && r.offset == MINIMUM_SLOT_SIZE_BYTES + before.bumpCursor * before.slotSize
  }

  /** Why an allocation is refused where it is. */
  function AllocationRefusal(t: Table, id: nat, required: nat): AllocationError {
    if id >= |t| then NoSuchSpan
    else if t[id].None? then VacantEntry
    else if IsSmall(t, id) && required > t[id].value.span.slotSize then SizeClassTooSmall
    else if IsSmall(t, id) && t[id].value.span.space.Survivor? then SurvivorIsNotAllocatable
    else SpanFull
  }

  /** An Old span has a dead slot below its cursor exactly when its free list has a head, which is one. */
  lemma HeadIffDead(s: SmallSpan)
    requires Reusable(s) && s.space == Old
    ensures s.freeHead.Some? <==> exists slot: nat :: slot < s.bumpCursor && !Has(s.allocations, slot)
    ensures s.freeHead.Some? ==> s.freeHead.value < s.bumpCursor && !Has(s.allocations, s.freeHead.value)
  {
    hide Has, SlotCount, IsSizeClass;
    var list :| IsFreeList(s, list) && ListsAllDead(s, list);
    HeadListed(s, list);
  }

  lemma AllocationKeeps(t: Table, id: nat, s': SmallSpan, slot: nat, h: Header)
    requires TableReusable(t) && IsSmall(t, id) && h.typeId != 0 && slot < |t[id].value.span.headers|
    requires slot < BITMAP_BITS && !Has(t[id].value.span.allocations, slot)
    requires Sound(s') && Reusable(s')
    requires s'.slotSize == t[id].value.span.slotSize && s'.marks == t[id].value.span.marks
    requires s'.headers == t[id].value.span.headers[slot := h]
    requires s'.allocations == Insert(t[id].value.span.allocations, slot)
    ensures TableReusable(t[id := Some(SmallKind(s'))])
    ensures OneMore(t, t[id := Some(SmallKind(s'))], RefAt(id, s'.slotSize, slot), h)
    ensures SpanChanged(t, t[id := Some(SmallKind(s'))], id, s')
  {
    hide Reusable, Has, SlotForOffset, IsSizeClass, VerifyReference, Insert, SlotCount, IsFreeList;
    var t' := t[id := Some(SmallKind(s'))];
    assert EntrySound(t, id);
    SmallReplaced(t, id, s');
    SlotPublished(t, t', id, s', slot, h);
    RefNamesSlot(id, s', slot, RefAt(id, s'.slotSize, slot));
  }

  lemma WithdrawalKeeps(t: Table, r: Ref, s': SmallSpan)
    requires TableSound(t) && Published(t, r) && IsSmall(t, r.span) && Sound(s')
    requires SlotOf(t[r.span].value.span, r).value < |t[r.span].value.span.headers| == |s'.headers|
    requires s'.slotSize == t[r.span].value.span.slotSize && s'.marks == t[r.span].value.span.marks
    requires forall i | 0 <= i < |s'.headers| && i != SlotOf(t[r.span].value.span, r).value ::
               s'.headers[i] == t[r.span].value.span.headers[i]
    requires SlotOf(t[r.span].value.span, r).value < BITMAP_BITS
    requires s'.allocations == Remove(t[r.span].value.span.allocations, SlotOf(t[r.span].value.span, r).value)
    ensures TableSound(t[r.span := Some(SmallKind(s'))])
    ensures TableReusable(t) && Reusable(s') ==> TableReusable(t[r.span := Some(SmallKind(s'))])
    ensures OneFewer(t, t[r.span := Some(SmallKind(s'))], r)
    ensures forall epoch, r' :: Marked(t[r.span := Some(SmallKind(s'))], epoch, r') <==> Marked(t, epoch, r')
    ensures forall epoch :: EpochsStored(t, epoch) ==> EpochsStored(t[r.span := Some(SmallKind(s'))], epoch)
  {
    hide Reusable, Has, SlotForOffset, IsSizeClass, VerifyReference, Remove, SlotCount, IsFreeList, EpochsStored, Marked;
    var t' := t[r.span := Some(SmallKind(s'))];
    var slot := SlotOf(t[r.span].value.span, r).value;
    assert EntrySound(t, r.span);
    SmallReplaced(t, r.span, s');
    SlotWithdrawn(t, t', r.span, s', slot);
    RefNamesSlot(r.span, s', slot, r);
    MarksUntouched(t, t', r.span, s');
  }

  lemma LinksUnchanged(s: SmallSpan)
    ensures OnlyLinksChanged(s, s)
  {
  }

  function Unlinked(s: SmallSpan): SmallSpan {
    SmallSpan(s.slotSize, s.space, s.allocations, s.marks, s.headers, s.bumpCursor, None, s.allocatedSlots)
  }

  lemma UnlinkedStart(s: SmallSpan)
    requires Sound(s)
    ensures Shaped(Unlinked(s)) && OnlyLinksChanged(s, Unlinked(s))
    ensures IsFreeList(Unlinked(s), []) && ListsDeadBelow(Unlinked(s), [], 0)
  {
    hide Has, SlotCount, IsSizeClass;
    RebuildStart(Unlinked(s));
  }

  lemma LinkedOnly(before: SmallSpan, s: SmallSpan, n: nat)
    requires OnlyLinksChanged(before, s) && n < |s.headers| && !Has(s.allocations, n)
    ensures OnlyLinksChanged(before, LinkFree(s, n))
  {
    hide Has;
  }

  /** Threads every dead slot below the cursor, last slot first. */
  method RebuildLinks(before: SmallSpan) returns (s: SmallSpan)
    requires Sound(before) && before.space == Old
    ensures Sound(s) && Reusable(s) && OnlyLinksChanged(before, s) && RelinkedDescending(s)
  {
    hide Has, Reusable, Sound, Shaped, IsFreeList, ListsDeadBelow, RelinkedDescending;
    s := Unlinked(before);
    ghost var list: seq<int> := [];
    UnlinkedStart(before);
    for n := 0 to s.bumpCursor
      invariant Shaped(s) && IsFreeList(s, list) && ListsDeadBelow(s, list, n) && OnlyLinksChanged(before, s) && Descending(list)
    {
      ShapeBounds(s);
      RebuildStep(s, list, n);
      if !Has(s.allocations, n) {
        LinkedOnly(before, s, n);
        DescendingStep(s, list, n);
        s, list := LinkFree(s, n), [n] + list;
      }
    }
    RebuildDone(s, list);
  }

  lemma RelinkKeeps(t: Table, id: nat, s': SmallSpan)
    requires TableSound(t) && IsSmall(t, id) && OnlyLinksChanged(t[id].value.span, s') && Sound(s')
    ensures TableSound(t[id := Some(SmallKind(s'))]) && SameObjects(t, t[id := Some(SmallKind(s'))])
    ensures forall epoch, r' :: Marked(t[id := Some(SmallKind(s'))], epoch, r') <==> Marked(t, epoch, r')
    ensures forall epoch :: EpochsStored(t, epoch) ==> EpochsStored(t[id := Some(SmallKind(s'))], epoch)
  {
    hide Reusable, Sound, Has, Published, VerifyReference, EpochsStored, Marked, TableSound;
    var t' := t[id := Some(SmallKind(s'))];
    SmallReplaced(t, id, s');
    LinksRewritten(t, t', id, s');
    MarksUntouched(t, t', id, s');
  }

  lemma NothingChanged(t: Table)
    ensures SameObjects(t, t)
  {
  }

  // ----- Marks -----

  lemma NothingMarkedLater(t: Table, epoch: nat, later: nat)
    requires EpochsStored(t, epoch) && epoch < later
    ensures EpochsStored(t, later) && forall r :: !Marked(t, later, r)
  {
    hide Has, SlotForOffset, IsSizeClass;
    forall i | 0 <= i < |t| && t[i].Some? ensures EpochsIn(t[i].value, later) {
      assert EpochsIn(t[i].value, epoch);
    }
    forall r ensures !Marked(t, later, r) {
      if r.span < |t| && t[r.span].Some? {
        assert EpochsIn(t[r.span].value, epoch);
      }
    }
  }

  function WithMarks(s: SmallSpan, marks: MarkBits): SmallSpan {
    SmallSpan(s.slotSize, s.space, s.allocations, marks, s.headers, s.bumpCursor, s.freeHead, s.allocatedSlots)
  }

  function WithMarkEpoch(l: LargeSpan, stored: Option<nat>): LargeSpan {
    LargeSpan(l.spanCount, l.objectBytes, l.isAllocated, stored, l.header)
  }

  /** Physical reset on the overflow path. */
  function ResetMarks(k: Kind): Kind {
    match k
    case SmallKind(s) => SmallKind(WithMarks(s, MarkBits(None, EmptyBitmap())))
    case LargeOwner(l) => LargeOwner(WithMarkEpoch(l, None))
    case LargeContinuation(_, _) => k
  }

  function ResetEntry(e: Option<Kind>): Option<Kind> {
    match e case None => None case Some(k) => Some(ResetMarks(k))
  }

  ghost predicate ResetBelow(t: Table, t': Table, n: nat) {
    && |t'| == |t|
    && (forall i | 0 <= i < |t| && i < n :: t'[i] == ResetEntry(t[i]))
    && (forall i | n <= i < |t| :: t'[i] == t[i])
  }

  /** Entries that differ in their marks only. */
  ghost predicate SameButMarks(k: Kind, k': Kind) {
    match k
    case SmallKind(s) => k'.SmallKind? && k'.span == WithMarks(s, k'.span.marks)
    case LargeOwner(l) => k'.LargeOwner? && k'.large == WithMarkEpoch(l, k'.large.markEpoch)
    case LargeContinuation(_, _) => k' == k
  }

  ghost predicate TableSameButMarks(t: Table, t': Table) {
    && |t'| == |t|
    && forall i | 0 <= i < |t| ::
         (t'[i].None? <==> t[i].None?) && (t[i].Some? && t'[i].Some? ==> SameButMarks(t[i].value, t'[i].value))
  }

  lemma SoundWithoutMarks(s: SmallSpan, marks: MarkBits)
    ensures Sound(WithMarks(s, marks)) <==> Sound(s)
    ensures Reusable(WithMarks(s, marks)) <==> Reusable(s)
  {
    hide Has, SlotCount, IsSizeClass, Threads;
    var s' := WithMarks(s, marks);
    forall list ensures IsFreeList(s', list) <==> IsFreeList(s, list) {}
    forall list ensures ListsAllDead(s', list) <==> ListsAllDead(s, list) {}
  }

  /** Marking concerns neither publication nor the free lists. */
  lemma ObjectsWithoutMarks(t: Table, t': Table)
    requires TableSameButMarks(t, t')
    ensures SameObjects(t, t')
  {
    hide Has, SlotForOffset, IsSizeClass;
  }

  lemma SoundnessWithoutMarks(t: Table, t': Table)
    requires TableSameButMarks(t, t')
    ensures TableSound(t) ==> TableSound(t')
    ensures TableReusable(t) ==> TableReusable(t')
  {
    hide Sound, Reusable;
    forall i | 0 <= i < |t| && t[i].Some? && t[i].value.SmallKind?
      ensures t'[i].Some? && t'[i].value.SmallKind?
      ensures Sound(t'[i].value.span) <==> Sound(t[i].value.span)
      ensures Reusable(t'[i].value.span) <==> Reusable(t[i].value.span)
    {
      SoundWithoutMarks(t[i].value.span, t'[i].value.span.marks);
    }
    if TableSound(t) {
      forall i | 0 <= i < |t'| ensures EntrySound(t', i) {
        assert EntrySound(t, i);
      }
    }
  }

  lemma AllReset(t: Table, t': Table)
    requires ResetBelow(t, t', |t|)
    ensures SameObjects(t, t') && EpochsStored(t', INITIAL_EPOCH)
    ensures TableSound(t) ==> TableSound(t')
    ensures TableReusable(t) ==> TableReusable(t')
    ensures forall r :: !Marked(t', INITIAL_EPOCH, r)
  {
    hide Has, SlotForOffset, IsSizeClass, Sound, Reusable, TableSound, TableReusable, SameObjects;
    forall slot: int ensures !Has(EmptyBitmap(), slot) { EmptyBitmapHasNothing(slot); }
    forall i | 0 <= i < |t'| && t'[i].Some? ensures EpochsIn(t'[i].value, INITIAL_EPOCH) {
      assert t'[i] == ResetEntry(t[i]);
    }
    forall r ensures !Marked(t', INITIAL_EPOCH, r) {
      if r.span < |t'| {
        assert t'[r.span] == ResetEntry(t[r.span]);
      }
    }
    assert TableSameButMarks(t, t') by {
      forall i | 0 <= i < |t| ensures t'[i] == ResetEntry(t[i]) {}
    }
    ObjectsWithoutMarks(t, t');
    SoundnessWithoutMarks(t, t');
  }

  /** A stale bitmap is cleared before its first mark of the epoch. */
  function MarkKind(k: Kind, epoch: nat, r: Ref): Kind
    requires k.SmallKind? ==> SlotOf(k.span, r).Some? && SlotOf(k.span, r).value < BITMAP_BITS
  {
    match k
    case SmallKind(s) =>
      var bits := if s.marks.epoch == Some(epoch) then s.marks.bits else EmptyBitmap();
      SmallKind(WithMarks(s, MarkBits(Some(epoch), Insert(bits, SlotOf(s, r).value))))
    case LargeOwner(l) => LargeOwner(WithMarkEpoch(l, Some(epoch)))
    case LargeContinuation(_, _) => k
  }

  lemma KindMarked(k: Kind, epoch: nat, r: Ref, stored: nat)
    requires PublishedIn(k, r) && EpochsIn(k, stored)
    requires k.SmallKind? ==> SlotOf(k.span, r).value < |k.span.headers|
    ensures k.SmallKind? ==> SlotOf(k.span, r).Some? && SlotOf(k.span, r).value < BITMAP_BITS
    ensures SameButMarks(k, MarkKind(k, epoch, r)) && EpochsIn(MarkKind(k, epoch, r), epoch)
    ensures forall r': Ref | r'.span == r.span ::
              MarkedIn(MarkKind(k, epoch, r), epoch, r') <==> MarkedIn(k, epoch, r') || r' == r
  {
    hide SlotForOffset, IsSizeClass, Insert;
    forall r': Ref | r'.span == r.span && k.SmallKind? && SlotOf(k.span, r') == SlotOf(k.span, r)
      ensures r' == r
    {
      SlotsNameRefs(k.span, r', r);
    }
    if k.SmallKind? {
      forall slot: int ensures !Has(EmptyBitmap(), slot) { EmptyBitmapHasNothing(slot); }
    }
  }

  lemma PublishedSlotBounded(t: Table, r: Ref)
    requires TableSound(t) && Published(t, r) && t[r.span].value.SmallKind?
    ensures SlotOf(t[r.span].value.span, r).value < |t[r.span].value.span.headers|
  {
    hide Has, SlotForOffset, IsSizeClass, SlotCount, IsFreeList;
    TableEntry(t, r.span);
    SpanBounds(t[r.span].value.span);
  }

  lemma MarkedOnce(t: Table, epoch: nat, r: Ref)
    requires Published(t, r) && TableSound(t) && EpochsStored(t, epoch)
    ensures t[r.span].value.SmallKind? ==>
              SlotOf(t[r.span].value.span, r).Some? && SlotOf(t[r.span].value.span, r).value < BITMAP_BITS
    ensures forall r' :: Marked(t[r.span := Some(MarkKind(t[r.span].value, epoch, r))], epoch, r')
                         <==> Marked(t, epoch, r') || r' == r
    ensures MarkedIn(t[r.span].value, epoch, r) <==> Marked(t, epoch, r)
    ensures SameObjects(t, t[r.span := Some(MarkKind(t[r.span].value, epoch, r))])
    ensures TableSound(t) ==> TableSound(t[r.span := Some(MarkKind(t[r.span].value, epoch, r))])
    ensures TableReusable(t) ==> TableReusable(t[r.span := Some(MarkKind(t[r.span].value, epoch, r))])
    ensures EpochsStored(t, epoch) ==> EpochsStored(t[r.span := Some(MarkKind(t[r.span].value, epoch, r))], epoch)
  {
    hide SlotOf, Has, Sound, Reusable, TableSound, TableReusable, SameObjects, MarkKind, MarkedIn, EpochsIn;
    if t[r.span].value.SmallKind? {
      PublishedSlotBounded(t, r);
    }
    KindMarked(t[r.span].value, epoch, r, epoch);
    var t' := t[r.span := Some(MarkKind(t[r.span].value, epoch, r))];
    forall r' ensures Marked(t', epoch, r') <==> Marked(t, epoch, r') || r' == r {
      if r'.span != r.span {
        assert Marked(t', epoch, r') <==> Marked(t, epoch, r');
      }
    }
    SelfSameButMarks(t);
    assert TableSameButMarks(t, t');
    ObjectsWithoutMarks(t, t');
    SoundnessWithoutMarks(t, t');
    if EpochsStored(t, epoch) {
      forall i | 0 <= i < |t'| && t'[i].Some? ensures EpochsIn(t'[i].value, epoch) {
        if i != r.span {
          assert EpochsIn(t[i].value, epoch);
        }
      }
    }
  }

  lemma SelfSameButMarks(t: Table)
    ensures forall i | 0 <= i < |t| && t[i].Some? :: SameButMarks(t[i].value, t[i].value)
  {
  }

  // ----- Whole spans -----

  ghost predicate NextFrom(t: Table, id: nat, start: nat, r: Ref)
    requires IsSmall(t, id)
  {
    var s := t[id].value.span;
    && r.span == id && Published(t, r)
    && SlotOf(s, r).Some? && start <= SlotOf(s, r).value && NoneBetween(s.allocations, start, SlotOf(s, r).value)
  }

  lemma SlotBetween(b: Bitmap, start: nat, slot: nat)
    requires start <= slot && Has(b, slot) && slot < MAX_SMALL_OBJECT_SLOTS
    ensures !NoneBetween(b, start, MAX_SMALL_OBJECT_SLOTS)
  {
  }

  ghost function WithoutSpan(refs: iset<Ref>, id: nat): iset<Ref> {
    iset r | r in refs && r.span != id
  }

  lemma TableEntry(t: Table, id: nat)
    requires TableSound(t) && id < |t|
    ensures EntrySound(t, id)
  {
  }

  lemma SameObjectsTransitive(a: Table, b: Table, c: Table)
    requires SameObjects(a, b) && SameObjects(b, c)
    ensures SameObjects(a, c)
  {
    hide Published, VerifyReference;
  }

  lemma FreshSpan(slotSize: nat, space: Space, storage: seq<Header>)
    requires IsSizeClass(slotSize) && |storage| == SlotCount(slotSize)
    ensures Sound(NewSpan(slotSize, space, storage)) && Reusable(NewSpan(slotSize, space, storage))
  {
    hide SlotCount, IsSizeClass, Has;
    var s := NewSpan(slotSize, space, storage);
    forall slot: int ensures !Has(s.allocations, slot) { EmptyBitmapHasNothing(slot); }
    EmptySlots();
    SlotCountBounded(slotSize);
    EmptyList(s);
    assert ListsAllDead(s, []);
  }

  lemma SlotCountBounded(size: nat)
    requires IsSizeClass(size)
    ensures SlotCount(size) <= MAX_SMALL_OBJECT_SLOTS
  {
    if SlotCount(size) > 0 {
      SlotFits(size, 0);
    }
  }

  lemma FreshKindEmpty(slotSize: nat, space: Space, storage: seq<Header>, epoch: nat)
    ensures forall r :: !PublishedIn(SmallKind(NewSpan(slotSize, space, storage)), r)
    ensures forall r :: !MarkedIn(SmallKind(NewSpan(slotSize, space, storage)), epoch, r)
    ensures EpochsIn(SmallKind(NewSpan(slotSize, space, storage)), epoch)
  {
    hide Has, SlotOf;
    forall slot: int ensures !Has(EmptyBitmap(), slot) { EmptyBitmapHasNothing(slot); }
  }

  function Installed(t: Table, id: nat, s: SmallSpan): Table
    requires id <= |t|
  {
    if id == |t| then t + [Some(SmallKind(s))] else t[id := Some(SmallKind(s))]
  }

  lemma SpanInstalled(t: Table, id: nat, s: SmallSpan, epoch: nat)
    requires TableReusable(t) && id <= |t| && (id < |t| ==> t[id].None?)
    requires IsNew(s)
    ensures TableSound(Installed(t, id, s)) && TableReusable(Installed(t, id, s))
    ensures SameObjects(t, Installed(t, id, s))
    ensures forall r :: Marked(Installed(t, id, s), epoch, r) <==> Marked(t, epoch, r)
    ensures EpochsStored(t, epoch) ==> EpochsStored(Installed(t, id, s), epoch)
  {
    hide Sound, Reusable, PublishedIn, MarkedIn, EpochsIn, NewSpan, IsSizeClass, SlotCount;
    FreshSpan(s.slotSize, s.space, s.headers);
    FreshKindEmpty(s.slotSize, s.space, s.headers, epoch);
    var t' := Installed(t, id, s);
    forall i | 0 <= i < |t'| ensures EntrySound(t', i) {
      if i != id {
        assert EntrySound(t, i);
      }
    }
    if EpochsStored(t, epoch) {
      forall i | 0 <= i < |t'| && t'[i].Some? ensures EpochsIn(t'[i].value, epoch) {
        if i != id {
          assert EpochsIn(t[i].value, epoch);
        }
      }
    }
  }

  /** The slot counter is zero exactly when no reference into the span resolves. */
  lemma EmptyIffUnpublished(t: Table, id: nat)
    requires TableSound(t) && IsSmall(t, id)
    ensures t[id].value.span.allocatedSlots == 0 <==> forall r | Published(t, r) :: r.span != id
  {
    hide Has, SlotForOffset, IsSizeClass, SlotCount, IsFreeList;
    var s := t[id].value.span;
    assert EntrySound(t, id);
    SpanBounds(s);
    if s.allocatedSlots == 0 {
      assert Slots(s.allocations) == {};
      forall slot: int ensures !Has(s.allocations, slot) {
        assert slot !in Slots(s.allocations);
      }
    } else {
      assert Slots(s.allocations) != {};
      var slot :| slot in Slots(s.allocations);
      RefNamesSlot(id, s, slot, RefAt(id, s.slotSize, slot));
      assert Published(t, RefAt(id, s.slotSize, slot));
    }
  }

  /** An empty span is vacated, or starts over with fresh metadata. */
  lemma EmptySpanReplaced(t: Table, id: nat, renewed: Option<SmallSpan>, epoch: nat)
    requires TableSound(t) && IsSmall(t, id) && t[id].value.span.allocatedSlots == 0
    requires renewed.Some? ==> IsNew(renewed.value)
    ensures var t' := t[id := if renewed.None? then None else Some(SmallKind(renewed.value))];
            && TableSound(t') && SameObjects(t, t')
            && (EpochsStored(t, epoch) ==> EpochsStored(t', epoch))
            && forall r :: Marked(t', epoch, r) <==> Marked(t, epoch, r) && r.span != id
  {
    hide Sound, Reusable, PublishedIn, MarkedIn, EpochsIn, NewSpan, IsSizeClass, SlotCount;
    EmptyIffUnpublished(t, id);
    if renewed.Some? {
      FreshSpan(renewed.value.slotSize, renewed.value.space, renewed.value.headers);
      FreshKindEmpty(renewed.value.slotSize, renewed.value.space, renewed.value.headers, epoch);
    }
    var t' := t[id := if renewed.None? then None else Some(SmallKind(renewed.value))];
    forall i | 0 <= i < |t'| ensures EntrySound(t', i) {
      assert EntrySound(t, i);
    }
    if EpochsStored(t, epoch) {
      forall i | 0 <= i < |t'| && t'[i].Some? ensures EpochsIn(t'[i].value, epoch) {
        if i != id {
          assert EpochsIn(t[i].value, epoch);
        }
      }
    }
  }

  function InOld(s: SmallSpan): SmallSpan {
    SmallSpan(s.slotSize, Old, s.allocations, s.marks, s.headers, s.bumpCursor, s.freeHead, s.allocatedSlots)
  }

  lemma LinksKeepSpace(s: SmallSpan, s': SmallSpan)
    requires OnlyLinksChanged(s, s')
    ensures s'.space == s.space
  {
  }

  lemma PromotedSound(s: SmallSpan)
    requires Sound(s)
    ensures Sound(InOld(s))
  {
    hide Has, SlotCount, IsSizeClass, Threads;
    var list :| IsFreeList(s, list);
    assert IsFreeList(InOld(s), list);
  }

  lemma PromotedKeeps(t: Table, id: nat, epoch: nat)
    requires TableSound(t) && IsSmall(t, id)
    ensures var t' := t[id := Some(SmallKind(InOld(t[id].value.span)))];
            && TableSound(t') && SameObjects(t, t')
            && (EpochsStored(t, epoch) ==> EpochsStored(t', epoch))
            && forall r :: Marked(t', epoch, r) <==> Marked(t, epoch, r)
  {
    hide Sound, Reusable, Has, SlotOf;
    var s' := InOld(t[id].value.span);
    assert EntrySound(t, id);
    PromotedSound(t[id].value.span);
    SmallReplaced(t, id, s');
    LinksRewritten(t, t[id := Some(SmallKind(s'))], id, s');
    MarksUntouched(t, t[id := Some(SmallKind(s'))], id, s');
  }

  // ----- Large objects -----

  /** The entries of a large object: its owner, then its continuations. */
  function LargeEntry(id: nat, l: LargeSpan, k: nat): Option<Kind> {
    Some(if k == 0 then LargeOwner(l) else LargeContinuation(id, k))
  }

  ghost predicate VacantRange(t: Table, id: nat, count: nat) {
    && 1 <= count && id + count <= MAX_LOGICAL_SPANS
    && (id == |t| || (id + count <= |t| && forall i | id <= i < id + count :: t[i].None?))
  }

  /** The first `n` entries of the range are written. */
  ghost predicate LargePlaced(t: Table, t': Table, id: nat, l: LargeSpan, n: nat) {
    && id + n <= |t'| && |t'| == (if id == |t| then id + n else |t|) && id <= |t|
    && (forall k | 0 <= k < n :: t'[id + k] == LargeEntry(id, l, k))
    && (forall i | 0 <= i < |t| && !(id <= i < id + n) :: t'[i] == t[i])
  }

  function PlaceLargeEntry(t: Table, id: nat, l: LargeSpan, k: nat): Table
    requires id + k <= |t|
  {
    if id + k == |t| then t + [LargeEntry(id, l, k)] else t[id + k := LargeEntry(id, l, k)]
  }

  function NewLarge(count: nat, bytes: nat, h: Header): LargeSpan { LargeSpan(count, bytes, true, None, h) }

  lemma LargeInstalled(t: Table, t': Table, id: nat, l: LargeSpan, epoch: nat)
    requires TableReusable(t) && VacantRange(t, id, l.spanCount) && LargePlaced(t, t', id, l, l.spanCount)
    requires l.isAllocated && l.header.typeId != 0 && l.markEpoch == None
    ensures TableSound(t') && TableReusable(t')
    ensures OneMore(t, t', Ref(id, MINIMUM_SLOT_SIZE_BYTES), l.header)
    ensures forall r :: Marked(t', epoch, r) <==> Marked(t, epoch, r)
    ensures EpochsStored(t, epoch) ==> EpochsStored(t', epoch)
  {
    hide Sound, Reusable, Has, SlotOf;
    assert t'[id + 0] == LargeEntry(id, l, 0);
    forall i | 0 <= i < |t'| ensures !(id <= i < id + l.spanCount) ==> i < |t| && t'[i] == t[i]
      ensures id <= i < id + l.spanCount ==> t'[i] == LargeEntry(id, l, i - id) && (i >= |t| || t[i].None?)
    {
      if id <= i < id + l.spanCount {
        assert t'[id + (i - id)] == LargeEntry(id, l, i - id);
      }
    }
    forall i | 0 <= i < |t'| ensures EntrySound(t', i) {
      if i < |t| {
        assert EntrySound(t, i);
      }
    }
    if EpochsStored(t, epoch) {
      forall i | 0 <= i < |t'| && t'[i].Some? ensures EpochsIn(t'[i].value, epoch) {
        if !(id <= i < id + l.spanCount) {
          assert EpochsIn(t[i].value, epoch);
        }
      }
    }
  }

  lemma LargeWithdrawn(t: Table, id: nat, epoch: nat)
    requires TableSound(t) && IsLarge(t, id) && t[id].value.large.isAllocated
    ensures var t' := t[id := Some(LargeOwner(Withdrawn(t[id].value.large)))];
            && TableSound(t') && (TableReusable(t) ==> TableReusable(t'))
            && OneFewer(t, t', Ref(id, MINIMUM_SLOT_SIZE_BYTES))
            && (EpochsStored(t, epoch) ==> EpochsStored(t', epoch))
            && forall r :: Marked(t', epoch, r) <==> Marked(t, epoch, r) && r.span != id
  {
    hide Sound, Reusable, Has, SlotOf;
    LargeReplaced(t, id, Withdrawn(t[id].value.large));
    var t' := t[id := Some(LargeOwner(Withdrawn(t[id].value.large)))];
    assert EntrySound(t, id);
    if EpochsStored(t, epoch) {
      forall i | 0 <= i < |t'| && t'[i].Some? ensures EpochsIn(t'[i].value, epoch) {
        assert EpochsIn(t[i].value, epoch);
      }
    }
  }

  function Withdrawn(l: LargeSpan): LargeSpan { LargeSpan(l.spanCount, l.objectBytes, false, None, l.header) }

  /** The first `n` entries of the range are vacated. */
  ghost predicate RangeVacated(t: Table, t': Table, id: nat, n: nat) {
    && |t'| == |t|
    && (forall i | 0 <= i < |t| && id <= i < id + n :: t'[i] == None)
    && (forall i | 0 <= i < |t| && !(id <= i < id + n) :: t'[i] == t[i])
  }

  lemma LargeReleased(t: Table, t': Table, id: nat, epoch: nat)
    requires TableSound(t) && IsLarge(t, id) && !t[id].value.large.isAllocated
    requires RangeVacated(t, t', id, t[id].value.large.spanCount)
    ensures TableSound(t') && (TableReusable(t) ==> TableReusable(t')) && SameObjects(t, t')
    ensures EpochsStored(t, epoch) ==> EpochsStored(t', epoch)
    ensures forall r :: Marked(t', epoch, r) <==> Marked(t, epoch, r) && r.span != id
  {
    hide Sound, Reusable, Has, SlotOf;
    var n := t[id].value.large.spanCount;
    assert EntrySound(t, id);
    forall i | id < i < id + n ensures t[i] == Some(LargeContinuation(id, i - id)) {
      assert t[id + (i - id)] == Some(LargeContinuation(id, i - id));
    }
    forall i | 0 <= i < |t'| ensures EntrySound(t', i) {
      assert EntrySound(t, i);
      if IsLarge(t', i) {
        var l := t[i].value.large;
        forall k | 1 <= k < l.spanCount ensures t'[i + k] == Some(LargeContinuation(i, k)) {
          assert t[i + k] == Some(LargeContinuation(i, k));
        }
      }
    }
    if EpochsStored(t, epoch) {
      forall i | 0 <= i < |t'| && t'[i].Some? ensures EpochsIn(t'[i].value, epoch) {
        assert EpochsIn(t[i].value, epoch);
      }
    }
  }

  function SlotUnpublished(t: Table, r: Ref): Table {
    if IsSmall(t, r.span) then
      var s := t[r.span].value.span;
      if SlotOf(s, r).Some? && SlotOf(s, r).value < BITMAP_BITS && s.allocatedSlots > 0
      then t[r.span := Some(SmallKind(Unpublish(s, SlotOf(s, r).value)))] else t
    else t
  }

  /** `epoch` is the heap's current collection epoch; `marked` is the mark set the bitmaps stand for. */
  class SpanTable {
    var entries: Table
    var epoch: nat
    /** The vacated id the free-range list is known to have room for. */
    var reservedFor: Option<nat>
    ghost var marked: iset<Ref>

    ghost predicate Valid()
      reads this
    {
      && TableSound(entries)
      && INITIAL_EPOCH <= epoch <= MAX_EPOCH
      && EpochsStored(entries, epoch)
      && forall r :: r in marked <==> Marked(entries, epoch, r)
    }

    constructor ()
      ensures Valid() && TableReusable(entries) && entries == [] && marked == iset{}
    {
      entries, epoch, reservedFor, marked := [], INITIAL_EPOCH, None, iset{};
    }

    // ----- Allocation and reclamation -----

    /** Initialises an object in a selected span: an Old span reuses dead slots before it bumps. */
    method TryAllocateInSpan(id: nat, required: nat, h: Header) returns (result: Allocation)
      requires Valid() && TableReusable(entries) && h.typeId != 0
      modifies this`entries
      ensures Valid() && TableReusable(entries)
      ensures result.Allocated? ==>
        result.reference.span == id && OneMore(old(entries), entries, result.reference, h)
      ensures result.Allocated? ==> OneSpanTouched(old(entries), entries, id)
      ensures result.Allocated? <==> CanAllocate(old(entries), id, required)
      ensures result.Refused? ==> entries == old(entries)
      ensures FitsOld(old(entries), id, required) ==>
        (result.Refused? <==> AllSlotsLive(old(entries)[id].value.span))
      ensures result.Allocated? ==> TakenSlot(old(entries)[id].value.span, entries[id].value.span, result.reference)
      ensures result.Refused? ==> result.error == AllocationRefusal(old(entries), id, required)
    {
      hide Has, EpochsStored, Marked, Published, VerifyReference, AllSlotsLive, Reusable, Sound;
      if id >= |entries| { return Refused(NoSuchSpan); }
      if entries[id].None? { return Refused(VacantEntry); }
      if !entries[id].value.SmallKind? { return Refused(SpanFull); }
      var s := entries[id].value.span;
      if required > s.slotSize { return Refused(SizeClassTooSmall); }
      if s.space.Survivor? { return Refused(SurvivorIsNotAllocatable); }
      assert EntrySound(entries, id);
      SpanBounds(s);
      if s.space == Old {
        FullMeansAllLive(s);
        HeadIffDead(s);
      }
      var slot: nat, s': SmallSpan;
      if s.space == Old && s.freeHead.Some? {
        slot := s.freeHead.value;
        HeadInRange(s);
        ListedAllocationKeeps(s, h);
        s' := Commit(TakeListed(s), slot, h);
      } else {
        if s.bumpCursor >= |s.headers| { return Refused(SpanFull); }
        slot := s.bumpCursor;
        BumpAllocationKeeps(s, h);
        s' := Commit(TakeBump(s), slot, h);
      }
      AllocationKeeps(entries, id, s', slot, h);
      MarksUntouched(entries, entries[id := Some(SmallKind(s'))], id, s');
      entries := entries[id := Some(SmallKind(s'))];
      return Allocated(RefAt(id, s.slotSize, slot));
    }

    /** Reclaims an object whose destructor has run; an Old slot becomes reusable at once. */
    method ReclaimSmallAfterDrop(r: Ref) returns (ok: bool)
      requires Valid() && TableReusable(entries)
      modifies this`entries
      ensures Valid() && TableReusable(entries)
      ensures ok <==> IsSmall(old(entries), r.span) && Published(old(entries), r)
      ensures if ok then OneFewer(old(entries), entries, r) else entries == old(entries)
    {
      hide Has, EpochsStored, Marked, VerifyReference, Reusable, Sound, SlotOf;
      if r.span >= |entries| || entries[r.span].None? || !entries[r.span].value.SmallKind? { return false; }
      var s := entries[r.span].value.span;
      if SlotOf(s, r).None? { return false; }
      var slot := SlotOf(s, r).value;
      if !Has(s.allocations, slot) { return false; }
      assert EntrySound(entries, r.span);
      SpanBounds(s);
      var s';
      if s.space == Old {
        ReclaimedListed(s, slot);
        s' := LinkFree(Unpublish(s, slot), slot);
      } else {
        Unpublished(s, slot);
        s' := Unpublish(s, slot);
        YoungReusable(s');
      }
      WithdrawalKeeps(entries, r, s');
      entries := entries[r.span := Some(SmallKind(s'))];
      return true;
    }

    /** Removes lifetime metadata before the destructor runs; the slot is not reusable until a rebuild. */
    method UnpublishSmallForDrop(r: Ref) returns (ok: bool)
      requires Valid()
      modifies this`entries
      ensures Valid()
      ensures ok <==> IsSmall(old(entries), r.span) && Published(old(entries), r)
      ensures ok ==> OneFewer(old(entries), entries, r)
      ensures entries == if ok then SlotUnpublished(old(entries), r) else old(entries)
    {
      hide Has, EpochsStored, Marked, VerifyReference, Reusable, Sound, SlotOf;
      if r.span >= |entries| || entries[r.span].None? || !entries[r.span].value.SmallKind? { return false; }
      var s := entries[r.span].value.span;
      if SlotOf(s, r).None? { return false; }
      var slot := SlotOf(s, r).value;
      if !Has(s.allocations, slot) { return false; }
      assert EntrySound(entries, r.span);
      SpanBounds(s);
      Unpublished(s, slot);
      var s' := Unpublish(s, slot);
      WithdrawalKeeps(entries, r, s');
      entries := entries[r.span := Some(SmallKind(s'))];
      return true;
    }

    /** Makes every dead slot of an Old span reusable again. */
    method RebuildOldFreeList(id: nat)
      requires Valid()
      modifies this`entries
      ensures Valid() && SameObjects(old(entries), entries)
      ensures |entries| == |old(entries)| && forall i | 0 <= i < |entries| && i != id :: entries[i] == old(entries)[i]
      ensures IsSmall(old(entries), id) ==>
        && IsSmall(entries, id) && Reusable(entries[id].value.span)
        && OnlyLinksChanged(old(entries)[id].value.span, entries[id].value.span)
        && if old(entries)[id].value.span.space == Old then RelinkedDescending(entries[id].value.span)
           else entries == old(entries)
    {
      hide Has, EpochsStored, Marked, Published, VerifyReference, Reusable, Sound, IsFreeList, ListsDeadBelow, OnlyLinksChanged,
        RelinkedDescending;
      if id >= |entries| || entries[id].None? || !entries[id].value.SmallKind? { return; }
      var before := entries[id].value.span;
      assert EntrySound(entries, id);
      if before.space != Old {
        YoungReusable(before);
        LinksUnchanged(before);
        return;
      }
      var s := RebuildLinks(before);
      RelinkKeeps(entries, id, s);
      entries := entries[id := Some(SmallKind(s))];
    }

    // ----- Epoch-qualified marks -----

    /** Starts a collection: every object is white again, even when the epoch counter wraps. */
    method AdvanceCollectionEpoch()
      requires Valid()
      modifies this
      ensures Valid() && marked == iset{}
      ensures SameObjects(old(entries), entries)
      ensures TableReusable(old(entries)) ==> TableReusable(entries)
      ensures epoch == if old(epoch) < MAX_EPOCH then old(epoch) + 1 else INITIAL_EPOCH
    {
      hide Has, Published, VerifyReference, Reusable, Sound, TableSound, TableReusable, SameObjects, EpochsStored;
      marked := iset{};
      if epoch < MAX_EPOCH {
        NothingMarkedLater(entries, epoch, epoch + 1);
        epoch := epoch + 1;
        NothingChanged(entries);
        return;
      }
      for i := 0 to |entries|
        invariant ResetBelow(old(entries), entries, i)
        invariant epoch == old(epoch) && marked == iset{}
      {
        if entries[i].Some? {
          entries := entries[i := Some(ResetMarks(entries[i].value))];
        }
      }
      epoch := INITIAL_EPOCH;
      AllReset(old(entries), entries);
    }

    /** White to gray; answers whether the object was white, or nothing for a reference that names no object. */
    method MarkReference(r: Ref) returns (changed: Option<bool>)
      requires Valid()
      modifies this`entries, this`marked
      ensures Valid() && SameObjects(old(entries), entries)
      ensures TableReusable(old(entries)) ==> TableReusable(entries)
      ensures if Published(old(entries), r)
              then changed == Some(r !in old(marked)) && marked == old(marked) + iset{r}
              else changed.None? && marked == old(marked)
    {
      hide Has, Insert, Reusable, Sound, TableSound, TableReusable, SameObjects, EpochsStored, Marked, SlotOf, MarkKind;
      VerifiedIffPublished(entries, r);
      if VerifyReference(entries, r).Rejected? {
        NothingChanged(entries);
        return None;
      }
      var kind := entries[r.span].value;
      MarkedOnce(entries, epoch, r);
      changed := Some(!MarkedIn(kind, epoch, r));
      entries := entries[r.span := Some(MarkKind(kind, epoch, r))];
      marked := marked + iset{r};
    }

    /** Mark state of a live object; nothing for any other reference. */
    method IsMarked(r: Ref) returns (answer: Option<bool>)
      requires Valid()
      ensures answer == if Published(entries, r) then Some(r in marked) else None
    {
      hide Has, Sound, TableSound, EpochsStored, SlotOf;
      VerifiedIffPublished(entries, r);
      if VerifyReference(entries, r).Rejected? { return None; }
      return Some(MarkedIn(entries[r.span].value, epoch, r));
    }

    /** Current-epoch marks of a young span, counted on its bitmap alone, and its slot count. */
    method YoungLiveOccupancy(id: nat) returns (occupancy: Option<(nat, nat)>)
      requires Valid()
      ensures occupancy.Some? <==> IsSmall(entries, id) && entries[id].value.span.space != Old
      ensures occupancy.Some? ==>
        occupancy.value == (MarkedSlots(entries[id].value.span, epoch), |entries[id].value.span.headers|)
    {
      hide Has, EpochsStored, Marked, IsFreeList, Slots;
      if id >= |entries| || entries[id].None? || !entries[id].value.SmallKind? { return None; }
      var s := entries[id].value.span;
      if s.space == Old { return None; }
      TableEntry(entries, id);
      SpanBounds(s);
      if s.marks.epoch != Some(epoch) { return Some((0, SlotCount(s.slotSize))); }
      var marks := Count(s.marks.bits);
      return Some((marks, SlotCount(s.slotSize)));
    }

    /** The first live object of a small span at or after slot `start`. */
    method NextAllocatedReference(id: nat, start: nat) returns (next: Option<Ref>)
      requires Valid()
      ensures next.None? <==>
        (IsSmall(entries, id) ==> NoneBetween(entries[id].value.span.allocations, start, MAX_SMALL_OBJECT_SLOTS))
      ensures next.Some? ==> IsSmall(entries, id) && NextFrom(entries, id, start, next.value)
    {
      hide Has, EpochsStored, Marked, NoneBetween, IsFreeList;
      if id >= |entries| || entries[id].None? || !entries[id].value.SmallKind? { return None; }
      var s := entries[id].value.span;
      var slot := NextSet(s.allocations, start);
      if slot.None? { return None; }
      assert EntrySound(entries, id);
      SpanBounds(s);
      RefNamesSlot(id, s, slot.value, RefAt(id, s.slotSize, slot.value));
      SlotBetween(s.allocations, start, slot.value);
      return Some(RefAt(id, s.slotSize, slot.value));
    }

    // ----- Whole spans -----

    /** Installs fresh storage in a vacant entry or a new one. */
    method InstallSmall(id: nat, slotSize: nat, space: Space, storage: seq<Header>)
      requires Valid() && TableReusable(entries) && IsSizeClass(slotSize) && |storage| == SlotCount(slotSize)
      requires id <= |entries| && id < MAX_LOGICAL_SPANS && (id < |entries| ==> entries[id].None?)
      modifies this`entries, this`reservedFor
      ensures Valid() && TableReusable(entries) && SameObjects(old(entries), entries)
      ensures entries == Installed(old(entries), id, NewSpan(slotSize, space, storage))
    {
      hide Has, Sound, Reusable, EpochsStored, TableReusable, TableSound, Marked, SameObjects, SlotCount;
      var installed := NewSpan(slotSize, space, storage);
      SpanInstalled(entries, id, installed, epoch);
      entries := if id == |entries| then entries + [Some(SmallKind(installed))] else entries[id := Some(SmallKind(installed))];
      reservedFor := None;
    }

    /** Makes room for one more free range, so that releasing `id` cannot fail later. */
    method PrepareRelease(id: nat) returns (ok: bool)
      modifies this`reservedFor
      ensures if ok then reservedFor == Some(id) else reservedFor == old(reservedFor)
    {
      ok := *;
      if ok { reservedFor := Some(id); }
    }

    /** Releases an empty small span; anything else is refused without a change, and so is a release
        whose free range cannot be reserved. */
    method Release(id: nat) returns (ok: bool)
      requires Valid()
      modifies this`entries, this`marked, this`reservedFor
      ensures Valid() && SameObjects(old(entries), entries)
      ensures ok ==> IsSmall(old(entries), id) && forall r | Published(old(entries), r) :: r.span != id
      ensures old(reservedFor) == Some(id) ==>
        (ok <==> IsSmall(old(entries), id) && forall r | Published(old(entries), r) :: r.span != id)
      ensures if ok
              then entries == old(entries)[id := None] && marked == WithoutSpan(old(marked), id)
              else entries == old(entries) && marked == old(marked)
    {
      hide Has, Sound, Reusable, EpochsStored, TableSound, Marked, Published, SameObjects;
      NothingChanged(entries);
      if id >= |entries| || entries[id].None? || !entries[id].value.SmallKind? { return false; }
      EmptyIffUnpublished(entries, id);
      if entries[id].value.span.allocatedSlots != 0 { return false; }
      if reservedFor != Some(id) {
        var reserved := PrepareRelease(id);
        if !reserved { return false; }
      }
      EmptySpanReplaced(entries, id, None, epoch);
      entries, reservedFor := entries[id := None], None;
      marked := WithoutSpan(marked, id);
      return true;
    }

    /** Keeps an empty young span's storage in the pool with all of its metadata reset. */
    method PoolEmptyYoung(id: nat)
      requires Valid() && IsSmall(entries, id)
      requires entries[id].value.span.allocatedSlots == 0 && entries[id].value.span.space != Old
      modifies this`entries, this`marked
      ensures Valid() && SameObjects(old(entries), entries)
      ensures marked == WithoutSpan(old(marked), id)
      ensures entries == old(entries)[id := Some(SmallKind(
                NewSpan(old(entries)[id].value.span.slotSize, Eden, old(entries)[id].value.span.headers)))]
    {
      hide Has, Sound, Reusable, EpochsStored, TableSound, Marked, Published, SameObjects, SlotCount;
      var s := entries[id].value.span;
      TableEntry(entries, id);
      SpanBounds(s);
      var pooled := NewSpan(s.slotSize, Eden, s.headers);
      EmptySpanReplaced(entries, id, Some(pooled), epoch);
      entries := entries[id := Some(SmallKind(pooled))];
      marked := WithoutSpan(marked, id);
    }

    /** Whole-span promotion: the cohort changes first, then every dead slot becomes reusable. */
    method Promote(id: nat)
      requires Valid() && IsSmall(entries, id) && entries[id].value.span.space != Old
      modifies this`entries
      ensures Valid() && SameObjects(old(entries), entries)
      ensures IsSmall(entries, id) && entries[id].value.span.space == Old && Reusable(entries[id].value.span)
      ensures RelinkedDescending(entries[id].value.span)
      ensures var before, after := old(entries)[id].value.span, entries[id].value.span;
        && after.slotSize == before.slotSize && after.bumpCursor == before.bumpCursor && after.marks == before.marks
        && after.allocations == before.allocations && after.allocatedSlots == before.allocatedSlots
      ensures |entries| == |old(entries)| && forall i | 0 <= i < |entries| && i != id :: entries[i] == old(entries)[i]
    {
      hide Has, Sound, Reusable, EpochsStored, TableSound, Marked, Published, SameObjects, RelinkedDescending;
      PromotedKeeps(entries, id, epoch);
      entries := entries[id := Some(SmallKind(InOld(entries[id].value.span)))];
      ghost var promoted := entries;
      RebuildOldFreeList(id);
      SameObjectsTransitive(old(entries), promoted, entries);
      assert entries[id].value.span.space == Old by { LinksKeepSpace(promoted[id].value.span, entries[id].value.span); }
    }

    // ----- Large objects -----

    /** Publishes a large object over a vacant or appended range of logical ids. */
    method AllocateLarge(id: nat, count: nat, bytes: nat, h: Header)
      requires Valid() && TableReusable(entries) && VacantRange(entries, id, count) && h.typeId != 0
      modifies this`entries, this`reservedFor
      ensures Valid() && TableReusable(entries)
      ensures OneMore(old(entries), entries, Ref(id, MINIMUM_SLOT_SIZE_BYTES), h)
      ensures LargePlaced(old(entries), entries, id, NewLarge(count, bytes, h), count)
    {
      hide Has, Sound, Reusable, EpochsStored, TableReusable, TableSound, Marked, OneMore, LargeEntry;
      var l := NewLarge(count, bytes, h);
      for k := 0 to count
        invariant LargePlaced(old(entries), entries, id, l, k)
      {
        entries := PlaceLargeEntry(entries, id, l, k);
      }
      LargeInstalled(old(entries), entries, id, l, epoch);
      reservedFor := None;
    }

    /** Withdraws a large object before its destructor runs. */
    method UnpublishLargeForDrop(r: Ref) returns (ok: bool)
      requires Valid() && r.offset == MINIMUM_SLOT_SIZE_BYTES
      modifies this`entries, this`marked
      ensures Valid() && (TableReusable(old(entries)) ==> TableReusable(entries))
      ensures ok <==> IsLarge(old(entries), r.span) && Published(old(entries), r)
      ensures if ok
              then
                && OneFewer(old(entries), entries, r) && marked == WithoutSpan(old(marked), r.span)
                && entries == old(entries)[r.span := Some(LargeOwner(Withdrawn(old(entries)[r.span].value.large)))]
              else entries == old(entries) && marked == old(marked)
    {
      hide Has, Sound, Reusable, EpochsStored, TableReusable, TableSound, Marked, OneFewer, SlotOf;
      if r.span >= |entries| || entries[r.span].None? || !entries[r.span].value.LargeOwner? { return false; }
      if !entries[r.span].value.large.isAllocated { return false; }
      LargeWithdrawn(entries, r.span, epoch);
      entries := entries[r.span := Some(LargeOwner(Withdrawn(entries[r.span].value.large)))];
      marked := WithoutSpan(marked, r.span);
      return true;
    }

    /** Returns every entry of a withdrawn large object to the free ranges, if they have room. */
    method ReleaseUnpublishedLarge(id: nat) returns (ok: bool)
      requires Valid()
      modifies this`entries, this`marked, this`reservedFor
      ensures Valid() && SameObjects(old(entries), entries)
      ensures TableReusable(old(entries)) ==> TableReusable(entries)
      ensures ok ==> IsLarge(old(entries), id) && !old(entries)[id].value.large.isAllocated
      ensures old(reservedFor) == Some(id) ==>
        (ok <==> IsLarge(old(entries), id) && !old(entries)[id].value.large.isAllocated)
      ensures if ok
              then
                && RangeVacated(old(entries), entries, id, old(entries)[id].value.large.spanCount)
                && marked == WithoutSpan(old(marked), id)
              else entries == old(entries) && marked == old(marked)
    {
      hide Has, Sound, Reusable, EpochsStored, TableReusable, Marked, SameObjects, SlotOf;
      NothingChanged(entries);
      if id >= |entries| || entries[id].None? || !entries[id].value.LargeOwner? { return false; }
      if entries[id].value.large.isAllocated { return false; }
      if reservedFor != Some(id) {
        var reserved := PrepareRelease(id);
        if !reserved { return false; }
      }
      TableEntry(entries, id);
      var count := entries[id].value.large.spanCount;
      for k := 0 to count
        invariant RangeVacated(old(entries), entries, id, k) && marked == old(marked)
      {
        entries := entries[id + k := None];
      }
      LargeReleased(old(entries), entries, id, epoch);
      marked, reservedFor := WithoutSpan(marked, id), None;
      return true;
    }
  }
}
