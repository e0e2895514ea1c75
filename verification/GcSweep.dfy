/** Sweeping after a mark: every dead object is dropped once, and the accounts balance. */
module GcSweep {
  import opened Options
  import opened GcObjects
  import opened GcBitmaps
  import opened GcSpans
  import opened GcSpanTable

  datatype SweepError =
    | WorklistFull | WorklistAllocationFailed | InvalidReference | UnknownTypeId | SpanTableRefused
    | AllocationStateChanged | ExternalAccountingUnderflow

  datatype Stats = Stats(
    scanned: nat, live: nat, reclaimed: nat, scannedBytes: nat, liveBytes: nat, reclaimedBytes: nat)

  // ----- What a sweep has done so far -----

  /** From `t` to `t'` exactly the objects in `drops` disappeared, each dropped once and none of them marked. */
  ghost predicate Swept(t: Table, t': Table, marked: iset<Ref>, drops: seq<Ref>) {
    && NoDuplicates(drops)
    && (forall r | Published(t', r) :: Published(t, r) && VerifyReference(t', r) == VerifyReference(t, r))
    && (forall r :: r in drops <==> Published(t, r) && !Published(t', r))
    && (forall r | r in drops :: r !in marked)
  }

  lemma NothingSwept(t: Table, marked: iset<Ref>)
    ensures Swept(t, t, marked, [])
  {
  }

  lemma SweptOneMore(t: Table, t': Table, t'': Table, marked: iset<Ref>, drops: seq<Ref>, r: Ref)
    requires Swept(t, t', marked, drops) && OneFewer(t', t'', r) && r !in marked
    ensures Swept(t, t'', marked, drops + [r])
  {
    hide Published, VerifyReference;
  }

  lemma SweptSame(t: Table, t': Table, t'': Table, marked: iset<Ref>, drops: seq<Ref>)
    requires Swept(t, t', marked, drops) && SameObjects(t', t'')
    ensures Swept(t, t'', marked, drops)
  {
    hide Published, VerifyReference;
  }

  lemma SweptTransitive(t: Table, t': Table, t'': Table, marked: iset<Ref>, a: seq<Ref>, b: seq<Ref>)
    requires Swept(t, t', marked, a) && Swept(t', t'', marked, b)
    ensures Swept(t, t'', marked, a + b)
  {
    hide Published, VerifyReference;
    forall i, j | 0 <= i < j < |a + b| ensures (a + b)[i] != (a + b)[j] {
      if i < |a| <= j {
        assert a[i] in a && b[j - |a|] in b;
      }
    }
  }

  // ----- Sums over the table -----

  ghost function Sum(t: Table, w: Option<Kind> -> nat): nat {
    if t == [] then 0 else Sum(t[..|t| - 1], w) + w(t[|t| - 1])
  }

  lemma {:induction false} SumUpdated(t: Table, id: nat, e: Option<Kind>, w: Option<Kind> -> nat)
    requires id < |t|
    ensures Sum(t[id := e], w) + w(t[id]) == Sum(t, w) + w(e)
  {
    var last := |t| - 1;
    if id < last {
      SumUpdated(t[..last], id, e, w);
      assert t[id := e][..last] == t[..last][id := e];
    } else {
      assert t[id := e][..last] == t[..last];
    }
  }

  lemma {:induction false} SumPointwise(t: Table, t': Table, w: Option<Kind> -> nat)
    requires |t| == |t'| && forall i | 0 <= i < |t| :: w(t[i]) == w(t'[i])
    ensures Sum(t, w) == Sum(t', w)
  {
    if t != [] {
      SumPointwise(t[..|t| - 1], t'[..|t| - 1], w);
    }
  }

  /** Entries without weight between `low` and `high` do not change a prefix sum. */
  lemma {:induction false} SumSkips(t: Table, low: nat, high: nat, w: Option<Kind> -> nat)
    requires low <= high <= |t| && forall i | low <= i < high :: w(t[i]) == 0
    ensures Sum(t[..low], w) == Sum(t[..high], w)
  {
    if low < high {
      SumSkips(t, low, high - 1, w);
      assert t[..high][..high - 1] == t[..high - 1];
    }
  }

  function Charge(h: Header): nat { if h.external.Some? then h.external.value else 0 }

  function LiveCharge(s: SmallSpan, n: nat): nat
    requires n <= |s.headers|
  {
    if n == 0 then 0 else LiveCharge(s, n - 1) + if Has(s.allocations, n - 1) then Charge(s.headers[n - 1]) else 0
  }

  function EntryCharge(e: Option<Kind>): nat {
    match e
    case Some(SmallKind(s)) => LiveCharge(s, |s.headers|)
    case Some(LargeOwner(l)) => if l.isAllocated then Charge(l.header) else 0
    case _ => 0
  }

  function EntryObjects(e: Option<Kind>): nat {
    match e
    case Some(SmallKind(s)) => s.allocatedSlots
    case Some(LargeOwner(l)) => if l.isAllocated then 1 else 0
    case _ => 0
  }

  function EntryBytes(e: Option<Kind>): nat {
    match e
    case Some(SmallKind(s)) => s.allocatedSlots * s.slotSize
    case Some(LargeOwner(l)) => if l.isAllocated then l.objectBytes else 0
    case _ => 0
  }

  /** External bytes charged by all live objects. */
  ghost function TotalCharge(t: Table): nat { Sum(t, EntryCharge) }

  lemma {:induction false} ChargeWithout(s: SmallSpan, slot: nat, n: nat)
    requires n <= |s.headers| && slot < BITMAP_BITS && s.allocatedSlots > 0 && Has(s.allocations, slot)
    ensures LiveCharge(s, n)
            == LiveCharge(Unpublish(s, slot), n) + if slot < n then Charge(s.headers[slot]) else 0
  {
    hide Has, Remove;
    if n > 0 {
      ChargeWithout(s, slot, n - 1);
    }
  }

  lemma {:induction false} ChargeAfterLinks(s: SmallSpan, s': SmallSpan, n: nat)
    requires n <= |s.headers| == |s'.headers| && LiveUnchanged(s, s')
    ensures LiveCharge(s', n) == LiveCharge(s, n)
  {
    hide Has;
    if n > 0 {
      ChargeAfterLinks(s, s', n - 1);
    }
  }

  /** Withdrawing a small object lowers the total by exactly its own charge. */
  lemma WithdrawnCharge(t: Table, r: Ref)
    requires TableSound(t) && IsSmall(t, r.span) && Published(t, r)
    ensures VerifyReference(t, r).Verified?
    ensures TotalCharge(t) == TotalCharge(SlotUnpublished(t, r)) + Charge(VerifyReference(t, r).header)
  {
    hide Has, Remove, SlotForOffset, IsSizeClass, SlotCount, IsFreeList;
    var s := t[r.span].value.span;
    var slot := SlotOf(s, r).value;
    TableEntry(t, r.span);
    SpanBounds(s);
    LiveCounted(s, slot);
    ChargeWithout(s, slot, |s.headers|);
    SumUpdated(t, r.span, Some(SmallKind(Unpublish(s, slot))), EntryCharge);
  }

  // ----- One span, slot by slot -----

  predicate MarkBit(s: SmallSpan, epoch: nat, slot: int) { s.marks.epoch == Some(epoch) && Has(s.marks.bits, slot) }

  /** Slots below the cursor have been visited: the dead ones are gone, the rest of the span is untouched. */
  ghost predicate SpanSwept(s: SmallSpan, s': SmallSpan, epoch: nat, cursor: nat) {
    && s'.slotSize == s.slotSize && s'.headers == s.headers && s'.marks == s.marks && s'.space == s.space
    && s'.bumpCursor == s.bumpCursor && s'.freeHead == s.freeHead
    && forall i: int :: Has(s'.allocations, i) <==> Has(s.allocations, i) && (i < cursor ==> MarkBit(s, epoch, i))
  }

  ghost function LiveBelow(s: SmallSpan, epoch: nat, n: nat): set<int> {
    set i: int | 0 <= i < n && Has(s.allocations, i) && MarkBit(s, epoch, i)
  }

  lemma CursorMoves(s: SmallSpan, epoch: nat, cursor: nat, slot: nat)
    requires cursor <= slot && Has(s.allocations, slot) && NoneBetween(s.allocations, cursor, slot)
    ensures |SlotsBelow(s.allocations, slot + 1)| == |SlotsBelow(s.allocations, cursor)| + 1
    ensures |LiveBelow(s, epoch, slot + 1)|
            == |LiveBelow(s, epoch, cursor)| + if MarkBit(s, epoch, slot) then 1 else 0
  {
    hide Has;
    assert SlotsBelow(s.allocations, slot + 1) == SlotsBelow(s.allocations, cursor) + {slot};
    assert LiveBelow(s, epoch, slot + 1)
        == LiveBelow(s, epoch, cursor) + if MarkBit(s, epoch, slot) then {slot} else {};
  }

  lemma CursorAtEnd(s: SmallSpan, epoch: nat, cursor: nat)
    requires Shaped(s) && NoneBetween(s.allocations, cursor, MAX_SMALL_OBJECT_SLOTS)
    ensures |SlotsBelow(s.allocations, cursor)| == s.allocatedSlots
    ensures forall i: int | Has(s.allocations, i) :: i < cursor
  {
    hide Has, SlotCount, IsSizeClass;
    assert SlotsBelow(s.allocations, cursor) == Slots(s.allocations);
  }

  /** The slot search, seen from the reference it returned. */
  lemma NextSlot(t: Table, id: nat, start: nat, r: Ref, epoch: nat)
    requires TableSound(t) && IsSmall(t, id) && NextFrom(t, id, start, r)
    ensures r.span == id && Published(t, r)
    ensures var s := t[id].value.span; var slot := SlotOf(s, r).value;
            && SlotOf(s, r).Some? && start <= slot < s.bumpCursor <= |s.headers| <= MAX_SMALL_OBJECT_SLOTS
            && Has(s.allocations, slot) && NoneBetween(s.allocations, start, slot)
            && (Marked(t, epoch, r) <==> MarkBit(s, epoch, slot))
  {
    hide Has, SlotForOffset, IsSizeClass, IsFreeList;
    TableEntry(t, id);
    SpanBounds(t[id].value.span);
  }

  lemma NothingBelow(s: SmallSpan, epoch: nat)
    ensures |LiveBelow(s, epoch, 0)| == 0 && |SlotsBelow(s.allocations, 0)| == 0
  {
    assert LiveBelow(s, epoch, 0) == {} && SlotsBelow(s.allocations, 0) == {};
  }

  lemma LiveAtEnd(s: SmallSpan, epoch: nat, cursor: nat)
    requires Sound(s) && NoneBetween(s.allocations, cursor, MAX_SMALL_OBJECT_SLOTS)
    ensures |LiveBelow(s, epoch, cursor)| == |LiveBelow(s, epoch, MAX_SMALL_OBJECT_SLOTS)|
    ensures |SlotsBelow(s.allocations, cursor)| == s.allocatedSlots
  {
    hide Has, IsFreeList;
    SpanBounds(s);
    CursorAtEnd(s, epoch, cursor);
    assert LiveBelow(s, epoch, cursor) == LiveBelow(s, epoch, MAX_SMALL_OBJECT_SLOTS);
  }

  // ----- One owner entry -----

  /** What sweeping entry `id` may change, whether or not it succeeds. */
  ghost predicate OwnerStep(t: Table, t': Table, m: iset<Ref>, m': iset<Ref>, mine: seq<Ref>, id: nat) {
    && Swept(t, t', m, mine)
    && id < |t| == |t'| && t'[..id] == t[..id]
    && (forall i | id < i < |t| :: t'[i] == t[i] || (t'[i].None? && t[i].Some? && t[i].value.LargeContinuation?))
    && (forall r | Published(t', r) :: r in m' <==> r in m)
  }

  /** Scanned is what the entry held, live is what it holds, reclaimed is the difference. */
  ghost predicate EntryAccounted(c: Stats, c': Stats, e: Option<Kind>, e': Option<Kind>) {
    && c'.scanned == c.scanned + EntryObjects(e)
    && c'.live == c.live + EntryObjects(e')
    && c'.scanned - c.scanned == (c'.live - c.live) + (c'.reclaimed - c.reclaimed)
    && c'.scannedBytes == c.scannedBytes + EntryBytes(e)
    && c'.liveBytes == c.liveBytes + EntryBytes(e')
    && c'.scannedBytes - c.scannedBytes == (c'.liveBytes - c.liveBytes) + (c'.reclaimedBytes - c.reclaimedBytes)
  }

  predicate IsOwner(t: Table, id: nat) { IsSmall(t, id) || IsLarge(t, id) }

  ghost predicate Occupied(t: Table, id: nat) { exists r :: Published(t, r) && r.span == id }

  /** An owner that is still there is the old one, and not empty. */
  ghost predicate EntryRetained(t: Table, t': Table, id: nat) {
    OwnerKept(t, t', id) && (IsOwner(t', id) ==> Occupied(t', id))
  }

  ghost predicate OwnerKept(t: Table, t': Table, id: nat) {
    IsOwner(t', id) ==> IsOwner(t, id) && SameCohort(t[id].value, t'[id].value)
  }

  /** The entry holds exactly its marked objects, with every dead slot reusable, and is gone without any. */
  ghost predicate OwnerDone(t: Table, t': Table, m: iset<Ref>, id: nat, c: Stats, c': Stats)
    requires id < |t| == |t'|
  {
    && (forall r | Published(t', r) && r.span == id :: r in m)
    && (IsSmall(t', id) ==> Reusable(t'[id].value.span))
    && EntryAccounted(c, c', t[id], t'[id]) && EntryRetained(t, t', id)
  }

  lemma SpanStep(t: Table, t': Table, id: nat, m: iset<Ref>, mine: seq<Ref>)
    requires id < |t| && Swept(t, t', m, mine) && IsSmall(t', id) && t' == t[id := t'[id]]
    ensures OwnerStep(t, t', m, m, mine, id)
  {
    hide Swept, Published;
  }

  /** After the second pass the span publishes marked objects only. */
  lemma OnlyMarkedLeft(t: Table, t': Table, id: nat, epoch: nat, m: iset<Ref>)
    requires IsSmall(t, id) && IsSmall(t', id)
    requires forall r :: r in m <==> Marked(t, epoch, r)
    requires SpanSwept(t[id].value.span, t'[id].value.span, epoch, MAX_SMALL_OBJECT_SLOTS) && Sound(t[id].value.span)
    ensures forall r | Published(t', r) && r.span == id :: r in m
  {
    hide Has, SlotForOffset, IsFreeList;
    SpanBounds(t[id].value.span);
  }

  /** Releasing the emptied span. */
  lemma OwnerReleased(
    t: Table, t': Table, t'': Table, id: nat, m: iset<Ref>, m': iset<Ref>, mine: seq<Ref>, c: Stats, c': Stats)
    requires OwnerStep(t, t', m, m, mine, id) && SameObjects(t', t'') && t'' == t'[id := None]
    requires m' == WithoutSpan(m, id)
    requires IsSmall(t, id) && IsSmall(t', id) && t'[id].value.span.allocatedSlots == 0
    requires SpanAccounted(c, c', t[id].value.span, t'[id].value.span)
    ensures OwnerStep(t, t'', m, m', mine, id) && OwnerDone(t, t'', m, id, c, c')
  {
    hide Swept, VerifyReference;
    SweptSame(t, t', t'', m, mine);
    assert t''[..id] == t'[..id];
  }

  /** Rebuilding the retained span's free list. */
  lemma OwnerRetained(
    t: Table, t': Table, t'': Table, id: nat, m: iset<Ref>, mine: seq<Ref>, c: Stats, c': Stats)
    requires OwnerStep(t, t', m, m, mine, id) && SameObjects(t', t'')
    requires |t''| == |t'| && forall i | 0 <= i < |t''| && i != id :: t''[i] == t'[i]
    requires IsSmall(t, id) && IsSmall(t', id) && IsSmall(t'', id) && Reusable(t''[id].value.span)
    requires OnlyLinksChanged(t'[id].value.span, t''[id].value.span) && t'[id].value.span.slotSize == t[id].value.span.slotSize
    requires SpanAccounted(c, c', t[id].value.span, t'[id].value.span)
    requires forall r | Published(t', r) && r.span == id :: r in m
    requires t'[id].value.span.space == t[id].value.span.space && Occupied(t'', id)
    ensures OwnerStep(t, t'', m, m, mine, id) && OwnerDone(t, t'', m, id, c, c')
  {
    hide Swept, VerifyReference, Reusable, Has, Occupied;
    SweptSame(t, t', t'', m, mine);
    assert t''[..id] == t'[..id];
  }

  // ----- Large owners -----

  lemma LargeCharges(t: Table, id: nat)
    requires TableSound(t) && IsLarge(t, id) && t[id].value.large.isAllocated
    ensures Published(t, Ref(id, MINIMUM_SLOT_SIZE_BYTES))
    ensures VerifyReference(t, Ref(id, MINIMUM_SLOT_SIZE_BYTES)) == Verified(t[id].value.large.header)
    ensures var t' := t[id := Some(LargeOwner(Withdrawn(t[id].value.large)))];
            TotalCharge(t) == TotalCharge(t') + Charge(t[id].value.large.header)
  {
    TableEntry(t, id);
    SumUpdated(t, id, Some(LargeOwner(Withdrawn(t[id].value.large))), EntryCharge);
  }

  lemma LargeOccupied(t: Table, id: nat)
    requires IsLarge(t, id) && t[id].value.large.isAllocated
    ensures Occupied(t, id) && EntryRetained(t, t, id)
  {
    assert Published(t, Ref(id, MINIMUM_SLOT_SIZE_BYTES));
  }

  lemma VacatedCharge(t: Table, t': Table, id: nat)
    requires TableSound(t) && IsLarge(t, id) && !t[id].value.large.isAllocated
    requires RangeVacated(t, t', id, t[id].value.large.spanCount)
    ensures TotalCharge(t') == TotalCharge(t)
  {
    hide LiveCharge;
    RangeEntries(t, id);
    SumPointwise(t, t', EntryCharge);
  }

  lemma RangeEntries(t: Table, id: nat)
    requires TableSound(t) && IsLarge(t, id)
    ensures id + t[id].value.large.spanCount <= |t| && 1 <= t[id].value.large.spanCount
    ensures forall i | id < i < id + t[id].value.large.spanCount :: t[i] == Some(LargeContinuation(id, i - id))
  {
    TableEntry(t, id);
    forall i | id < i < id + t[id].value.large.spanCount ensures t[i] == Some(LargeContinuation(id, i - id)) {
      assert t[id + (i - id)] == Some(LargeContinuation(id, i - id));
    }
  }

  /** Vacating the range of a withdrawn large object. */
  lemma LargeRangeReleased(t: Table, t': Table, t'': Table, id: nat, m: iset<Ref>, m': iset<Ref>, mine: seq<Ref>)
    requires IsLarge(t, id) && IsLarge(t', id) && TableSound(t') && t' == t[id := t'[id]]
    requires t'[id].value.large.spanCount == t[id].value.large.spanCount && !t'[id].value.large.isAllocated
    requires Swept(t, t', m, mine) && SameObjects(t', t'') && RangeVacated(t', t'', id, t[id].value.large.spanCount)
    requires m' == WithoutSpan(m, id)
    ensures OwnerStep(t, t'', m, m', mine, id) && t''[id].None?
  {
    hide Swept, VerifyReference;
    RangeEntries(t', id);
    forall i | id < i < |t|
      ensures t''[i] == t[i] || (t''[i].None? && t[i].Some? && t[i].value.LargeContinuation?)
    {
      assert t'[i] == t[i];
    }
    SweptSame(t, t', t'', m, mine);
    assert t''[..id] == t[..id];
  }

  lemma LargeKept(t: Table, id: nat, m: iset<Ref>)
    requires id < |t|
    ensures OwnerStep(t, t, m, m, [], id)
  {
    NothingSwept(t, m);
  }

  lemma SizesKept(s: SmallSpan, s': SmallSpan, epoch: nat)
    requires SpanSwept(s, s', epoch, MAX_SMALL_OBJECT_SLOTS)
    ensures s'.slotSize == s.slotSize && s'.space == s.space
  {
  }

  /** A span whose slot counter is not zero holds an object. */
  lemma CountedOccupied(t: Table, id: nat)
    requires TableSound(t) && IsSmall(t, id) && t[id].value.span.allocatedSlots != 0
    ensures Occupied(t, id)
  {
    hide Published;
    EmptyIffUnpublished(t, id);
  }

  lemma SlotsStillCounted(s: SmallSpan, s': SmallSpan)
    requires OnlyLinksChanged(s, s')
    ensures s'.allocatedSlots == s.allocatedSlots
  {
  }

  lemma EmptyCharge(s: SmallSpan, n: nat)
    requires n <= |s.headers| && Shaped(s) && s.allocatedSlots == 0
    ensures LiveCharge(s, n) == 0
  {
    hide Has, SlotCount, IsSizeClass;
    assert Slots(s.allocations) == {};
    if n > 0 {
      assert n - 1 !in Slots(s.allocations);
      EmptyCharge(s, n - 1);
    }
  }

  lemma SameCharge(t: Table, t': Table, id: nat)
    requires TableSound(t) && IsSmall(t, id) && t[id].value.span.allocatedSlots == 0 && t' == t[id := None]
    ensures TotalCharge(t') == TotalCharge(t)
  {
    TableEntry(t, id);
    EmptyCharge(t[id].value.span, |t[id].value.span.headers|);
    SumUpdated(t, id, None, EntryCharge);
  }

  lemma RelinkedCharge(t: Table, t': Table, id: nat)
    requires IsSmall(t, id) && IsSmall(t', id) && OnlyLinksChanged(t[id].value.span, t'[id].value.span)
    requires |t'| == |t| && forall i | 0 <= i < |t'| && i != id :: t'[i] == t[i]
    ensures TotalCharge(t') == TotalCharge(t)
  {
    ChargeAfterLinks(t[id].value.span, t'[id].value.span, |t[id].value.span.headers|);
    SumPointwise(t, t', EntryCharge);
  }

  // ----- Where a sweep stopped -----

  /** Entry `stop.span` as a failed sweep leaves it: its dead objects before the stop are gone. */
  ghost predicate PartlySwept(t: Table, t': Table, m: iset<Ref>, stop: Stop) {
    && stop.span < |t| == |t'| && t' == t[stop.span := t'[stop.span]]
    && IsOwner(t, stop.span) && IsOwner(t', stop.span) && SameCohort(t[stop.span].value, t'[stop.span].value)
    && forall r: Ref | r.span == stop.span :: Published(t', r) <==> Published(t, r) && (r in m || !VisitedBefore(stop, r))
  }

  lemma NothingPartlySwept(t: Table, m: iset<Ref>, id: nat)
    requires IsOwner(t, id)
    ensures PartlySwept(t, t, m, Stop(id, 0))
  {
    hide Published;
  }

  lemma SlotOrder(size: nat, offset: nat, cursor: nat)
    requires IsSizeClass(size) && SlotForOffset(size, offset).Some?
    ensures SlotForOffset(size, offset).value < cursor <==> offset < MINIMUM_SLOT_SIZE_BYTES + cursor * size
  {
    var slot := SlotForOffset(size, offset).value;
    assert offset - MINIMUM_SLOT_SIZE_BYTES == slot * size;
    if slot < cursor {
      MultipleOrdered(slot, cursor, size);
    } else if cursor < slot {
      MultipleOrdered(cursor, slot, size);
    }
  }

  /** Dead objects below the cursor gone: a stop at the offset of that slot. */
  lemma SpanStopped(t: Table, t': Table, id: nat, epoch: nat, m: iset<Ref>, cursor: nat)
    requires IsSmall(t, id) && IsSmall(t', id) && t' == t[id := t'[id]] && TableSound(t)
    requires forall r :: r in m <==> Marked(t, epoch, r)
    requires SpanSwept(t[id].value.span, t'[id].value.span, epoch, cursor)
    ensures PartlySwept(t, t', m, Stop(id, MINIMUM_SLOT_SIZE_BYTES + cursor * t[id].value.span.slotSize))
  {
    hide Has, SlotForOffset, IsSizeClass, IsFreeList;
    var s := t[id].value.span;
    TableEntry(t, id);
    SpanBounds(s);
    forall r: Ref | r.span == id && SlotOf(s, r).Some?
      ensures SlotOf(s, r).value < cursor <==> VisitedBefore(Stop(id, MINIMUM_SLOT_SIZE_BYTES + cursor * s.slotSize), r)
    {
      SlotOrder(s.slotSize, r.offset, cursor);
    }
  }

  /** A table whose full sweep stopped: objects before the stop are there if marked, the others all. */
  ghost predicate StoppedAt(t: Table, t': Table, m: iset<Ref>, stop: Stop) {
    && (forall r :: Published(t', r) <==> Published(t, r) && (r in m || !VisitedBefore(stop, r)))
    && (forall i: nat :: IsOwner(t', i) <==> IsOwner(t, i) && (i <= stop.span || OccupiedBy(t, i, m)))
    && (forall i: nat :: OwnerKept(t, t', i))
  }

  ghost predicate OccupiedBy(t: Table, id: nat, m: iset<Ref>) { exists r :: Published(t, r) && r in m && r.span == id }

  lemma NothingStopped(t: Table, m: iset<Ref>)
    ensures StoppedAt(t, t, m, Stop(|t|, 0))
  {
    hide PublishedIn;
  }

  // ----- The whole table -----

  /** The worklist holds the owners below `b` in increasing order. */
  ghost predicate PendingOwners(t: Table, work: seq<nat>, b: nat) {
    && (forall i, j | 0 <= i < j < |work| :: work[i] < work[j])
    && (forall i: nat :: i in work <==> i < b && IsOwner(t, i))
  }

  /** Owners at or above `b` have been swept; everything below is as it was. */
  ghost predicate SweptFrom(t: Table, t': Table, m: iset<Ref>, m': iset<Ref>, mine: seq<Ref>, b: nat) {
    && Swept(t, t', m, mine)
    && b <= |t| == |t'| && t'[..b] == t[..b]
    && (forall r | Published(t', r) :: r in m' <==> r in m)
    && (forall r | Published(t', r) && r.span >= b :: r in m)
    && (forall i | b <= i < |t| && IsSmall(t', i) :: Reusable(t'[i].value.span))
    && (forall i: nat | b <= i :: EntryRetained(t, t', i))
  }

  ghost predicate Balanced(c: Stats, c': Stats) {
    && c'.scanned - c.scanned == (c'.live - c.live) + (c'.reclaimed - c.reclaimed)
    && c'.scannedBytes - c.scannedBytes == (c'.liveBytes - c.liveBytes) + (c'.reclaimedBytes - c.reclaimedBytes)
  }

  /** Everything at or above `b` is counted. */
  ghost predicate CountedFrom(t: Table, t': Table, c: Stats, c': Stats, b: nat)
    requires b <= |t'|
  {
    && Balanced(c, c')
    && c'.scanned + Sum(t'[..b], EntryObjects) == c.scanned + Sum(t, EntryObjects)
    && c'.live + Sum(t'[..b], EntryObjects) == c.live + Sum(t', EntryObjects)
    && c'.scannedBytes + Sum(t'[..b], EntryBytes) == c.scannedBytes + Sum(t, EntryBytes)
    && c'.liveBytes + Sum(t'[..b], EntryBytes) == c.liveBytes + Sum(t', EntryBytes)
  }

  lemma NextOwner(t: Table, work: seq<nat>, b: nat)
    requires PendingOwners(t, work, b) && work != []
    ensures var id := work[|work| - 1];
            && id < b && IsOwner(t, id) && PendingOwners(t, work[..|work| - 1], id)
            && forall i | id < i < b :: !IsOwner(t, i)
  {
    var last := |work| - 1;
    assert work[last] in work;
    forall i: nat ensures i in work[..last] <==> i < work[last] && IsOwner(t, i) {
      if i in work[..last] {
        assert i in work;
      } else if i in work {
        assert i == work[last];
      }
    }
    forall i: nat | work[last] < i < b ensures !IsOwner(t, i) {
      assert i !in work;
    }
  }

  lemma PendingBelow(t: Table, t': Table, work: seq<nat>, b: nat)
    requires PendingOwners(t, work, b) && b <= |t| == |t'| && t'[..b] == t[..b]
    ensures PendingOwners(t', work, b)
  {
    forall i: nat | i < b ensures IsOwner(t', i) <==> IsOwner(t, i) {
      assert t'[i] == t'[..b][i] && t[i] == t[..b][i];
    }
  }

  lemma SweptAgreeing(t: Table, t': Table, m: iset<Ref>, m0: iset<Ref>, mine: seq<Ref>)
    requires Swept(t, t', m, mine) && forall r | Published(t, r) :: r in m <==> r in m0
    ensures Swept(t, t', m0, mine)
  {
    hide Published, VerifyReference;
  }

  lemma RetainedSince(
    t0: Table, t: Table, t': Table, m0: iset<Ref>, m: iset<Ref>, m': iset<Ref>, mine: seq<Ref>, more: seq<Ref>,
    b: nat, id: nat, i: nat)
    requires SweptFrom(t0, t, m0, m, mine, b) && OwnerStep(t, t', m, m', more, id) && id < b && id <= i
    requires forall j | id < j < b :: !IsOwner(t, j)
    requires EntryRetained(t, t', id)
    ensures EntryRetained(t0, t', i)
  {
    hide Swept, VerifyReference, Reusable, PublishedIn;
    if i == id {
      assert t[id] == t[..b][id] == t0[..b][id] == t0[id];
    } else if IsOwner(t', i) {
      assert t'[i] == t[i] && IsOwner(t, i);
      assert EntryRetained(t0, t, i);
      var r :| Published(t, r) && r.span == i;
      assert Published(t', r);
    }
  }

  lemma OwnerSwept(
    t0: Table, t: Table, t': Table, m0: iset<Ref>, m: iset<Ref>, m': iset<Ref>, mine: seq<Ref>, more: seq<Ref>,
    b: nat, id: nat)
    requires SweptFrom(t0, t, m0, m, mine, b) && OwnerStep(t, t', m, m', more, id) && id < b
    requires forall i | id < i < b :: !IsOwner(t, i)
    requires forall r | Published(t', r) && r.span == id :: r in m
    requires IsSmall(t', id) ==> Reusable(t'[id].value.span)
    requires EntryRetained(t, t', id)
    ensures SweptFrom(t0, t', m0, m', mine + more, id)
  {
    hide VerifyReference, Reusable, PublishedIn, EntryRetained;
    forall i: nat | id <= i ensures EntryRetained(t0, t', i) {
      RetainedSince(t0, t, t', m0, m, m', mine, more, b, id, i);
    }
    SweptAgreeing(t, t', m, m0, more);
    SweptTransitive(t0, t, t', m0, mine, more);
    assert t'[..id] == t[..b][..id] == t0[..b][..id] == t0[..id];
    forall r | Published(t', r) ensures (r in m' <==> r in m0) && (r.span >= id ==> r in m0) {
      assert Published(t, r);
      if id < r.span < b {
        NotPublished(t, r);
      }
    }
    forall i: nat | id <= i < |t'| && IsSmall(t', i) ensures Reusable(t'[i].value.span) {
      if id < i {
        assert t'[i] == t[i];
        assert IsSmall(t, i) && IsOwner(t, i);
      }
    }
  }

  /** A failure at the next owner down stops the sweep there. */
  lemma FailedAt(
    t0: Table, t: Table, t': Table, m0: iset<Ref>, m: iset<Ref>, mine: seq<Ref>, b: nat, stop: Stop)
    requires SweptFrom(t0, t, m0, m, mine, b) && PartlySwept(t, t', m, stop) && stop.span < b
    requires forall i | stop.span < i < b :: !IsOwner(t, i)
    ensures StoppedAt(t0, t', m0, stop)
  {
    hide PublishedIn, VerifyReference, Reusable, OwnerKept, IsOwner, EntryRetained;
    forall r ensures Published(t', r) <==> Published(t0, r) && (r in m0 || !VisitedBefore(stop, r)) {
      FailedAtReference(t0, t, t', m0, m, mine, b, stop, r);
    }
    forall i: nat
      ensures IsOwner(t', i) <==> IsOwner(t0, i) && (i <= stop.span || OccupiedBy(t0, i, m0))
      ensures OwnerKept(t0, t', i)
    {
      FailedAtOwner(t0, t, t', m0, m, mine, b, stop, i);
    }
  }

  lemma FailedAtReference(
    t0: Table, t: Table, t': Table, m0: iset<Ref>, m: iset<Ref>, mine: seq<Ref>, b: nat, stop: Stop, r: Ref)
    requires SweptFrom(t0, t, m0, m, mine, b) && PartlySwept(t, t', m, stop) && stop.span < b
    requires forall i | stop.span < i < b :: !IsOwner(t, i)
    ensures Published(t', r) <==> Published(t0, r) && (r in m0 || !VisitedBefore(stop, r))
  {
    hide PublishedIn, VerifyReference, Reusable, SameCohort, EntryRetained;
    if r.span < b {
      assert r.span < |t0| ==> t[r.span] == t[..b][r.span] == t0[..b][r.span] == t0[r.span];
      if stop.span < r.span {
        NotPublished(t, r);
      }
    }
  }

  lemma FailedAtOwner(
    t0: Table, t: Table, t': Table, m0: iset<Ref>, m: iset<Ref>, mine: seq<Ref>, b: nat, stop: Stop, i: nat)
    requires SweptFrom(t0, t, m0, m, mine, b) && PartlySwept(t, t', m, stop) && stop.span < b
    requires forall i | stop.span < i < b :: !IsOwner(t, i)
    ensures IsOwner(t', i) <==> IsOwner(t0, i) && (i <= stop.span || OccupiedBy(t0, i, m0))
    ensures OwnerKept(t0, t', i)
  {
    hide PublishedIn, VerifyReference, Reusable, Swept;
    if i < b {
      assert t[i] == t[..b][i] == t0[..b][i] == t0[i];
      assert IsOwner(t0, i) <==> IsOwner(t, i);
      if i != stop.span {
        assert t'[i] == t[i];
        assert IsOwner(t', i) <==> IsOwner(t, i);
      }
    } else {
      SweptFromSwept(t0, t, m0, m, mine, b);
      MarkedStays(t0, t, m0, mine);
      assert EntryRetained(t0, t, i);
      if OccupiedBy(t0, i, m0) {
        var r :| Published(t0, r) && r in m0 && r.span == i;
        assert Published(t, r);
        PublishedOwner(t, r);
      }
    }
  }

  lemma MarkedStays(t: Table, t': Table, m: iset<Ref>, mine: seq<Ref>)
    requires Swept(t, t', m, mine)
    ensures forall r | Published(t, r) && r in m :: Published(t', r)
    ensures forall r | Published(t', r) :: Published(t, r)
  {
    hide VerifyReference, PublishedIn;
  }

  lemma PublishedOwner(t: Table, r: Ref)
    requires Published(t, r)
    ensures IsOwner(t, r.span)
  {
  }

  lemma NoWeight(t: Table, i: nat)
    requires i < |t| && !IsOwner(t, i)
    ensures EntryObjects(t[i]) == 0 && EntryBytes(t[i]) == 0
  {
  }

  lemma NotPublished(t: Table, r: Ref)
    requires !IsOwner(t, r.span)
    ensures !Published(t, r)
  {
  }

  lemma WeightMoves(t: Table, t': Table, id: nat, b: nat, w: Option<Kind> -> nat)
    requires id < b <= |t| == |t'| && t'[..id] == t[..id]
    requires forall i | id < i < b :: w(t[i]) == 0
    requires forall i | id < i < |t| :: w(t'[i]) == w(t[i])
    ensures Sum(t'[..id], w) + w(t[id]) == Sum(t[..b], w)
    ensures Sum(t', w) + w(t[id]) == Sum(t, w) + w(t'[id])
  {
    assert t[..id + 1][..id] == t[..id];
    SumSkips(t, id + 1, b, w);
    var u := t[id := t'[id]];
    SumUpdated(t, id, t'[id], w);
    forall i | 0 <= i < |t| ensures w(u[i]) == w(t'[i]) {
      if i < id {
        assert t'[..id][i] == t[..id][i];
      }
    }
    SumPointwise(u, t', w);
  }

  lemma OwnerCounted(
    t0: Table, t: Table, t': Table, m: iset<Ref>, m': iset<Ref>, more: seq<Ref>, b: nat, id: nat,
    c0: Stats, c: Stats, c': Stats)
    requires b <= |t| && CountedFrom(t0, t, c0, c, b) && OwnerStep(t, t', m, m', more, id) && id < b
    requires EntryAccounted(c, c', t[id], t'[id]) && forall i | id < i < b :: !IsOwner(t, i)
    ensures CountedFrom(t0, t', c0, c', id)
  {
    hide Swept, Published, Sum;
    forall i: nat | id < i < b ensures EntryObjects(t[i]) == 0 && EntryBytes(t[i]) == 0 { NoWeight(t, i); }
    WeightMoves(t, t', id, b, EntryObjects);
    WeightMoves(t, t', id, b, EntryBytes);
  }

  /** A finished sweep. */
  ghost predicate FullySwept(t: Table, t': Table, m: iset<Ref>, c: Stats, c': Stats, drops: nat) {
    && (forall r :: Published(t', r) <==> Published(t, r) && r in m)
    && TableReusable(t')
    && c'.scanned == c.scanned + Sum(t, EntryObjects) && c'.live == c.live + Sum(t', EntryObjects)
    && c'.scannedBytes == c.scannedBytes + Sum(t, EntryBytes) && c'.liveBytes == c.liveBytes + Sum(t', EntryBytes)
    && Balanced(c, c') && c'.reclaimed == c.reclaimed + drops
    && forall id: nat :: EntryRetained(t, t', id)
  }

  lemma AllOwnersSwept(
    t: Table, t': Table, m: iset<Ref>, m': iset<Ref>, mine: seq<Ref>, b: nat, c: Stats, c': Stats, work: seq<nat>)
    requires SweptFrom(t, t', m, m', mine, b) && CountedFrom(t, t', c, c', b) && TableSound(t')
    requires PendingOwners(t', work, b) && work == [] && c'.reclaimed == c.reclaimed + |mine|
    ensures FullySwept(t, t', m, c, c', |mine|)
  {
    hide VerifyReference, Reusable, PublishedIn, EntrySound, Occupied;
    forall i: nat | i < b
      ensures !IsOwner(t', i) && !IsSmall(t', i) && EntryObjects(t'[i]) == 0 && EntryBytes(t'[i]) == 0
    {
      assert i !in work;
      NoWeight(t', i);
    }
    forall r | Published(t', r) ensures r in m {
      if r.span < b {
        NotPublished(t', r);
      }
    }
    SumSkips(t', 0, b, EntryObjects);
    SumSkips(t', 0, b, EntryBytes);
    assert t'[..0] == [];
  }

  lemma NoOwners(t: Table)
    ensures PendingOwners(t, [], 0)
  {
  }

  lemma OwnerPushed(t: Table, work: seq<nat>, b: nat)
    requires PendingOwners(t, work, b)
    ensures PendingOwners(t, if IsOwner(t, b) then work + [b] else work, b + 1)
  {
    hide IsOwner;
    var longer := if IsOwner(t, b) then work + [b] else work;
    forall i, j | 0 <= i < j < |longer| ensures longer[i] < longer[j] {
      assert work[i] in work;
    }
    forall i: nat ensures i in longer <==> i < b + 1 && IsOwner(t, i) {
      assert i in longer <==> i in work || (IsOwner(t, b) && i == b);
    }
  }

  lemma NothingSweptFrom(t: Table, m: iset<Ref>, c: Stats)
    ensures SweptFrom(t, t, m, m, [], |t|) && CountedFrom(t, t, c, c, |t|)
  {
    hide Occupied;
    NothingSwept(t, m);
    assert t[..|t|] == t;
  }

  lemma OwnerKinds(t: Table, id: nat)
    requires IsOwner(t, id)
    ensures IsSmall(t, id) || IsLarge(t, id)
  {
  }

  lemma SweptFromSwept(t: Table, t': Table, m: iset<Ref>, m': iset<Ref>, mine: seq<Ref>, b: nat)
    requires SweptFrom(t, t', m, m', mine, b)
    ensures Swept(t, t', m, mine)
  {
  }

  lemma StepSwept(
    t0: Table, t: Table, t': Table, m0: iset<Ref>, m: iset<Ref>, m': iset<Ref>, mine: seq<Ref>, more: seq<Ref>,
    b: nat, id: nat)
    requires SweptFrom(t0, t, m0, m, mine, b) && OwnerStep(t, t', m, m', more, id)
    ensures Swept(t0, t', m0, mine + more)
  {
    hide Published, Swept;
    SweptAgreeing(t, t', m, m0, more);
    SweptTransitive(t0, t, t', m0, mine, more);
  }

  lemma ExplainedFromStart(
    t0: Table, t: Table, m0: iset<Ref>, m: iset<Ref>, mine: seq<Ref>, b: nat, error: SweepError, types: set<nat>,
    before: nat, now: nat)
    requires SweptFrom(t0, t, m0, m, mine, b) && Explained(error, t, types, now)
    requires now - TotalCharge(t) == before - TotalCharge(t0)
    ensures Explained(error, t0, types, before)
  {
    hide Published, Swept, Explained;
    ExplainedEarlier(t0, t, m0, mine, error, types, before, now);
  }

  lemma BelowKept(t: Table, t': Table, m: iset<Ref>, m': iset<Ref>, more: seq<Ref>, work: seq<nat>, id: nat)
    requires PendingOwners(t, work, id) && OwnerStep(t, t', m, m', more, id)
    ensures PendingOwners(t', work, id) && id <= |t'|
  {
    hide Swept;
    PendingBelow(t, t', work, id);
  }

  // ----- Teardown -----

  lemma SlotCounted(t: Table, id: nat, r: Ref)
    requires TableSound(t) && IsSmall(t, id) && r.span == id && Published(t, r)
    ensures IsSmall(SlotUnpublished(t, r), id) && |SlotUnpublished(t, r)| == |t|
    ensures SlotUnpublished(t, r)[id].value.span.allocatedSlots < t[id].value.span.allocatedSlots
  {
    hide SlotForOffset, IsSizeClass, SlotCount, IsFreeList;
    TableEntry(t, id);
    LiveCounted(t[id].value.span, SlotOf(t[id].value.span, r).value);
  }

  lemma NothingLeft(t: Table, id: nat)
    requires TableSound(t) && IsSmall(t, id)
    requires NoneBetween(t[id].value.span.allocations, 0, MAX_SMALL_OBJECT_SLOTS)
    ensures forall r | Published(t, r) :: r.span != id
  {
    hide Has, IsFreeList, SlotForOffset;
    TableEntry(t, id);
    SpanBounds(t[id].value.span);
  }

  lemma NotPublishedHere(t: Table, id: nat)
    requires !IsOwner(t, id)
    ensures forall r | Published(t, r) :: r.span != id
  {
  }

  lemma SweptSubset(t: Table, t': Table, drops: seq<Ref>)
    requires Swept(t, t', iset{}, drops)
    ensures forall r | Published(t', r) :: Published(t, r)
  {
  }

  // ----- Counters -----

  function CountSurvivor(c: Stats, size: nat): Stats {
    Stats(c.scanned + 1, c.live + 1, c.reclaimed, c.scannedBytes + size, c.liveBytes + size, c.reclaimedBytes)
  }

  function CountDrop(c: Stats, size: nat): Stats {
    Stats(c.scanned + 1, c.live, c.reclaimed + 1, c.scannedBytes + size, c.liveBytes, c.reclaimedBytes + size)
  }

  /** The counters after visiting the slots below the cursor, `n` of them dropped. */
  ghost predicate Counted(c: Stats, c': Stats, s: SmallSpan, epoch: nat, cursor: nat, n: nat) {
    && |SlotsBelow(s.allocations, cursor)| == |LiveBelow(s, epoch, cursor)| + n
    && c'.scanned == c.scanned + |SlotsBelow(s.allocations, cursor)|
    && c'.live == c.live + |LiveBelow(s, epoch, cursor)|
    && c'.reclaimed == c.reclaimed + n
    && c'.scannedBytes == c.scannedBytes + |SlotsBelow(s.allocations, cursor)| * s.slotSize
    && c'.liveBytes == c.liveBytes + |LiveBelow(s, epoch, cursor)| * s.slotSize
    && c'.reclaimedBytes == c.reclaimedBytes + n * s.slotSize
  }

  /** Scanned is what the span held, live is what it holds, reclaimed is the difference. */
  ghost predicate SpanAccounted(c: Stats, c': Stats, s: SmallSpan, s': SmallSpan) {
    && c'.scanned == c.scanned + s.allocatedSlots
    && c'.live == c.live + s'.allocatedSlots
    && c'.scanned - c.scanned == (c'.live - c.live) + (c'.reclaimed - c.reclaimed)
    && c'.scannedBytes == c.scannedBytes + s.allocatedSlots * s.slotSize
    && c'.liveBytes == c.liveBytes + s'.allocatedSlots * s.slotSize
    && c'.scannedBytes - c.scannedBytes == (c'.liveBytes - c.liveBytes) + (c'.reclaimedBytes - c.reclaimedBytes)
  }

  lemma NothingCounted(c: Stats, s: SmallSpan, epoch: nat)
    ensures Counted(c, c, s, epoch, 0, 0)
  {
    NothingBelow(s, epoch);
  }

  lemma CountedStep(c: Stats, c': Stats, s: SmallSpan, epoch: nat, cursor: nat, slot: nat, n: nat)
    requires Counted(c, c', s, epoch, cursor, n)
    requires cursor <= slot && Has(s.allocations, slot) && NoneBetween(s.allocations, cursor, slot)
    ensures if MarkBit(s, epoch, slot) then Counted(c, CountSurvivor(c', s.slotSize), s, epoch, slot + 1, n)
            else Counted(c, CountDrop(c', s.slotSize), s, epoch, slot + 1, n + 1)
  {
    hide Has, LiveBelow, SlotsBelow, NoneBetween, MarkBit;
    CursorMoves(s, epoch, cursor, slot);
    Distributes(|SlotsBelow(s.allocations, cursor)|, s.slotSize);
    Distributes(|LiveBelow(s, epoch, cursor)|, s.slotSize);
    Distributes(n, s.slotSize);
  }

  lemma Distributes(n: nat, size: nat)
    ensures (n + 1) * size == n * size + size
  {
  }

  lemma SpanUnswept(s: SmallSpan, epoch: nat)
    ensures SpanSwept(s, s, epoch, 0)
  {
    hide MarkBit;
  }

  lemma SpanSweptStep(s: SmallSpan, s': SmallSpan, epoch: nat, cursor: nat, slot: nat)
    requires SpanSwept(s, s', epoch, cursor) && cursor <= slot && slot < BITMAP_BITS && Sound(s')
    requires Has(s'.allocations, slot) && NoneBetween(s'.allocations, cursor, slot)
    ensures Has(s.allocations, slot) && NoneBetween(s.allocations, cursor, slot)
    ensures s'.slotSize == s.slotSize && s'.allocatedSlots > 0
    ensures MarkBit(s', epoch, slot) <==> MarkBit(s, epoch, slot)
    ensures SpanSwept(s, if MarkBit(s, epoch, slot) then s' else Unpublish(s', slot), epoch, slot + 1)
  {
    hide Has, Remove, SlotCount, IsSizeClass, IsFreeList;
    LiveCounted(s', slot);
  }

  lemma SpanFinished(c: Stats, c': Stats, s: SmallSpan, s': SmallSpan, epoch: nat, cursor: nat, n: nat)
    requires Counted(c, c', s, epoch, cursor, n) && SpanSwept(s, s', epoch, cursor) && Sound(s)
    requires NoneBetween(s'.allocations, cursor, MAX_SMALL_OBJECT_SLOTS) && s'.allocatedSlots + n == s.allocatedSlots
    ensures SpanSwept(s, s', epoch, MAX_SMALL_OBJECT_SLOTS) && SpanAccounted(c, c', s, s')
    ensures c'.reclaimed == c.reclaimed + n
    ensures s'.allocatedSlots == |LiveBelow(s, epoch, MAX_SMALL_OBJECT_SLOTS)|
  {
    hide Has, IsFreeList, MarkBit, LiveBelow, SlotsBelow;
    SpanBounds(s);
    forall i | cursor <= i < MAX_SMALL_OBJECT_SLOTS ensures !Has(s.allocations, i) {
      assert !Has(s'.allocations, i);
    }
    LiveAtEnd(s, epoch, cursor);
    ProductSplits(|LiveBelow(s, epoch, cursor)|, n, s.slotSize);
  }

  lemma ProductSplits(a: nat, b: nat, size: nat)
    ensures (a + b) * size == a * size + b * size
  {
  }

  /** A failure part-way through a sweep has the same cause at its start. */
  lemma ExplainedEarlier(
    t: Table, t': Table, marked: iset<Ref>, drops: seq<Ref>, error: SweepError, types: set<nat>, before: nat, now: nat)
    requires Swept(t, t', marked, drops) && Explained(error, t', types, now)
    requires now - TotalCharge(t') == before - TotalCharge(t)
    ensures Explained(error, t, types, before)
  {
    hide Published, VerifyReference;
    if UnknownType(t', types) {
      var r :| Published(t', r) && VerifyReference(t', r).Verified? && VerifyReference(t', r).header.typeId !in types;
      assert Published(t, r) && VerifyReference(t, r) == VerifyReference(t', r);
    }
  }

  // ----- Errors -----

  ghost predicate UnknownType(t: Table, types: set<nat>) {
    exists r :: Published(t, r) && VerifyReference(t, r).Verified? && VerifyReference(t, r).header.typeId !in types
  }

  /** Each failure has its cause; two of the reported failures cannot happen at all. */
  ghost predicate Explained(error: SweepError, t: Table, types: set<nat>, external: nat) {
    match error
    case UnknownTypeId => UnknownType(t, types)
    case ExternalAccountingUnderflow => external < TotalCharge(t)
    case SpanTableRefused => true
    case WorklistFull => false
    case WorklistAllocationFailed => false
    case InvalidReference => false
    case AllocationStateChanged => false
  }

  /** One collection's sweep over a heap's table. */
  class Sweeper {
    const table: SpanTable
    const types: set<nat>
    var external: nat
    var stats: Stats
    ghost var drops: seq<Ref>

    constructor (table: SpanTable, types: set<nat>, external: nat)
      ensures this.table == table && this.types == types && this.external == external && drops == []
      ensures stats == Stats(0, 0, 0, 0, 0, 0)
    {
      this.table, this.types, this.external := table, types, external;
      stats, drops := Stats(0, 0, 0, 0, 0, 0), [];
    }

    /** What the external counter is off by; a sweep never changes it. */
    ghost function Imbalance(): int
      reads this, table
    {
      external - TotalCharge(table.entries)
    }

    /** Checks everything that can fail, withdraws the object, and only then runs its destructor. */
    method DropSmall(r: Ref) returns (error: Option<SweepError>)
      requires table.Valid() && IsSmall(table.entries, r.span)
      modifies table`entries, this`external, this`drops
      ensures table.Valid() && Imbalance() == old(Imbalance())
      ensures error.None? ==>
        && OneFewer(old(table.entries), table.entries, r) && drops == old(drops) + [r]
        && table.entries == SlotUnpublished(old(table.entries), r)
      ensures error.Some? ==>
        && table.entries == old(table.entries) && external == old(external) && drops == old(drops)
        && error.value != SpanTableRefused
        && (Published(table.entries, r) ==> Explained(error.value, table.entries, types, external))
    {
      hide Has, Sound, Published, VerifyReference, EpochsStored, TableSound, OneFewer, SlotUnpublished, TotalCharge, Marked;
      VerifiedIffPublished(table.entries, r);
      var header := VerifyReference(table.entries, r);
      if header.Rejected? { return Some(InvalidReference); }
      if header.header.typeId !in types { return Some(UnknownTypeId); }
      WithdrawnCharge(table.entries, r);
      var charged := Charge(header.header);
      if charged > external { return Some(ExternalAccountingUnderflow); }
      var unpublished := table.UnpublishSmallForDrop(r);
      if !unpublished { return Some(AllocationStateChanged); }
      external := external - charged;
      drops := drops + [r];
      return None;
    }

    /** First pass: how many objects survive. */
    method CountLive(id: nat) returns (counted: Option<nat>)
      requires table.Valid() && IsSmall(table.entries, id)
      ensures counted == Some(|LiveBelow(table.entries[id].value.span, table.epoch, MAX_SMALL_OBJECT_SLOTS)|)
    {
      hide Has, Sound, Published, EpochsStored, TableSound, SlotOf, NextFrom, NoneBetween, LiveBelow, MarkedIn;
      var cursor: nat := 0;
      var live: nat := 0;
      ghost var s := table.entries[id].value.span;
      NothingBelow(s, table.epoch);
      while true
        invariant live == |LiveBelow(s, table.epoch, cursor)|
        decreases MAX_SMALL_OBJECT_SLOTS - cursor
      {
        var next := table.NextAllocatedReference(id, cursor);
        if next.None? { break; }
        var r := next.value;
        NextSlot(table.entries, id, cursor, r, table.epoch);
        var slot := SlotOf(table.entries[id].value.span, r).value;
        CursorMoves(s, table.epoch, cursor, slot);
        cursor := slot + 1;
        var marked := table.IsMarked(r);
        if marked.None? { return None; }
        if marked.value { live := live + 1; }
      }
      TableEntry(table.entries, id);
      LiveAtEnd(s, table.epoch, cursor);
      return Some(live);
    }

    /** Second pass: drops every dead object of a span while walking the bitmap it edits. */
    method DropDead(id: nat) returns (error: Option<SweepError>)
      requires table.Valid() && IsSmall(table.entries, id)
      modifies table`entries, this
      ensures table.Valid() && Imbalance() == old(Imbalance())
      ensures exists mine :: drops == old(drops) + mine && Swept(old(table.entries), table.entries, table.marked, mine)
      ensures IsSmall(table.entries, id) && table.entries == old(table.entries)[id := table.entries[id]]
      ensures error.Some? ==>
        && Explained(error.value, old(table.entries), types, old(external)) && error.value != SpanTableRefused
        && exists cursor: nat :: SpanSwept(old(table.entries)[id].value.span, table.entries[id].value.span, table.epoch, cursor)
      ensures error.None? ==>
        && SpanSwept(old(table.entries)[id].value.span, table.entries[id].value.span, table.epoch, MAX_SMALL_OBJECT_SLOTS)
        && SpanAccounted(old(stats), stats, old(table.entries)[id].value.span, table.entries[id].value.span)
        && |drops| - |old(drops)| == stats.reclaimed - old(stats).reclaimed
        && table.entries[id].value.span.allocatedSlots
           == |LiveBelow(old(table.entries)[id].value.span, table.epoch, MAX_SMALL_OBJECT_SLOTS)|
    {
      hide Has, Sound, Published, EpochsStored, TableSound, SlotOf, NextFrom, NoneBetween, LiveBelow, MarkedIn, Shaped,
        SpanSwept, Swept, OneFewer, TotalCharge, Counted, Explained, VerifyReference, SpanAccounted, Reusable, MarkBit;
      ghost var t, s := table.entries, table.entries[id].value.span;
      ghost var mine: seq<Ref> := [];
      var cursor: nat := 0;
      TableEntry(t, id);
      NothingSwept(t, table.marked);
      SpanUnswept(s, table.epoch);
      NothingCounted(stats, s, table.epoch);
      while true
        invariant table.Valid() && Imbalance() == old(Imbalance())
        invariant drops == old(drops) + mine && Swept(t, table.entries, table.marked, mine)
        invariant IsSmall(table.entries, id) && table.entries == t[id := table.entries[id]]
        invariant SpanSwept(s, table.entries[id].value.span, table.epoch, cursor)
        invariant Counted(old(stats), stats, s, table.epoch, cursor, |mine|)
        invariant table.entries[id].value.span.allocatedSlots + |mine| == s.allocatedSlots
        decreases MAX_SMALL_OBJECT_SLOTS - cursor
      {
        var next := table.NextAllocatedReference(id, cursor);
        if next.None? { break; }
        var r := next.value;
        ghost var before := table.entries;
        var span := table.entries[id].value.span;
        NextSlot(table.entries, id, cursor, r, table.epoch);
        var slot := SlotOf(span, r).value;
        TableEntry(table.entries, id);
        SpanSweptStep(s, span, table.epoch, cursor, slot);
        CountedStep(old(stats), stats, s, table.epoch, cursor, slot, |mine|);
        ghost var reached := cursor;
        cursor := slot + 1;
        var marked := table.IsMarked(r);
        if marked.None? { return Some(InvalidReference); }
        if marked.value {
          stats := CountSurvivor(stats, span.slotSize);
        } else {
          error := DropSmall(r);
          if error.Some? {
            ExplainedEarlier(t, table.entries, table.marked, mine, error.value, types, old(external), external);
            assert SpanSwept(s, table.entries[id].value.span, table.epoch, reached);
            return;
          }
          SweptOneMore(t, before, table.entries, table.marked, mine, r);
          mine := mine + [r];
          stats := CountDrop(stats, span.slotSize);
        }
      }
      SpanFinished(old(stats), stats, s, table.entries[id].value.span, table.epoch, cursor, |mine|);
      return None;
    }

    /** Sweeps one small span: reserves its release before dropping anything, then releases or relinks it. */
    method SweepSmall(id: nat) returns (error: Option<SweepError>)
      requires table.Valid() && IsSmall(table.entries, id)
      modifies table`entries, table`marked, table`reservedFor, this
      ensures table.Valid() && Imbalance() == old(Imbalance())
      ensures exists mine :: drops == old(drops) + mine
                && OwnerStep(old(table.entries), table.entries, old(table.marked), table.marked, mine, id)
      ensures error == Some(SpanTableRefused) ==> table.entries == old(table.entries) && drops == old(drops)
      ensures error.Some? ==>
        && Explained(error.value, old(table.entries), types, old(external))
        && exists stop: Stop :: stop.span == id && PartlySwept(old(table.entries), table.entries, old(table.marked), stop)
      ensures error.None? ==>
        && OwnerDone(old(table.entries), table.entries, old(table.marked), id, old(stats), stats)
        && |drops| - |old(drops)| == stats.reclaimed - old(stats).reclaimed
    {
      hide Has, Sound, Published, EpochsStored, TableSound, LiveBelow, Shaped, Swept, TotalCharge, VerifyReference,
        SpanSwept, SpanAccounted, SameObjects, OwnerStep, OwnerDone, Reusable, OnlyLinksChanged, UnknownType, MarkedIn,
        Occupied, PartlySwept;
      ghost var t, m, c := table.entries, table.marked, stats;
      TableEntry(t, id);
      NothingPartlySwept(t, m, id);
      NothingSwept(t, m);
      SpanStep(t, t, id, m, []);
      var counted := CountLive(id);
      if counted.None? { return Some(InvalidReference); }
      var live := counted.value;
      if live == 0 {
        var reserved := table.PrepareRelease(id);
        if !reserved {
          assert drops == old(drops) + [];
          return Some(SpanTableRefused);
        }
      }
      error := DropDead(id);
      ghost var t' := table.entries;
      ghost var mine :| drops == old(drops) + mine && Swept(t, t', m, mine);
      SpanStep(t, t', id, m, mine);
      if error.Some? {
        ghost var cursor: nat :| SpanSwept(t[id].value.span, t'[id].value.span, table.epoch, cursor);
        SpanStopped(t, t', id, table.epoch, m, cursor);
        return;
      }
      OnlyMarkedLeft(t, t', id, table.epoch, m);
      if table.entries[id].value.span.allocatedSlots == 0 {
        assert live == 0;
        EmptyIffUnpublished(table.entries, id);
        var released := table.Release(id);
        if !released { return Some(SpanTableRefused); }
        OwnerReleased(t, t', table.entries, id, m, table.marked, mine, c, stats);
        SameCharge(t', table.entries, id);
        return None;
      }
      table.RebuildOldFreeList(id);
      SizesKept(t[id].value.span, t'[id].value.span, table.epoch);
      SlotsStillCounted(t'[id].value.span, table.entries[id].value.span);
      CountedOccupied(table.entries, id);
      OwnerRetained(t, t', table.entries, id, m, mine, c, stats);
      RelinkedCharge(t', table.entries, id);
    }

    /** Drops or keeps one large object; its whole range of entries goes with it. */
    method SweepLarge(id: nat) returns (error: Option<SweepError>)
      requires table.Valid() && IsLarge(table.entries, id)
      modifies table`entries, table`marked, table`reservedFor, this
      ensures table.Valid() && Imbalance() == old(Imbalance())
      ensures exists mine :: drops == old(drops) + mine
                && OwnerStep(old(table.entries), table.entries, old(table.marked), table.marked, mine, id)
      ensures error.Some? ==>
        && table.entries == old(table.entries) && drops == old(drops)
        && Explained(error.value, old(table.entries), types, old(external))
      ensures error.None? ==>
        && OwnerDone(old(table.entries), table.entries, old(table.marked), id, old(stats), stats)
        && |drops| - |old(drops)| == stats.reclaimed - old(stats).reclaimed
    {
      hide Has, Sound, EpochsStored, TableSound, Swept, TotalCharge, SlotOf, SameObjects, OwnerStep, Reusable,
        OneFewer, VerifyReference, RangeVacated, Marked, Occupied;
      ghost var t, m := table.entries, table.marked;
      var r := Ref(id, MINIMUM_SLOT_SIZE_BYTES);
      var large := table.entries[id].value.large;
      LargeKept(t, id, m);
      assert drops == old(drops) + [];
      if !large.isAllocated {
        var reserved := table.PrepareRelease(id);
        if !reserved { return Some(SpanTableRefused); }
        var released := table.ReleaseUnpublishedLarge(id);
        if !released { return Some(SpanTableRefused); }
        NothingSwept(t, m);
        LargeRangeReleased(t, t, table.entries, id, m, table.marked, []);
        VacatedCharge(t, table.entries, id);
        return None;
      }
      LargeCharges(t, id);
      LargeOccupied(t, id);
      stats := stats.(scanned := stats.scanned + 1, scannedBytes := stats.scannedBytes + large.objectBytes);
      var marked := table.IsMarked(r);
      if marked.None? { return Some(InvalidReference); }
      if marked.value {
        stats := stats.(live := stats.live + 1, liveBytes := stats.liveBytes + large.objectBytes);
        return None;
      }
      var reserved := table.PrepareRelease(id);
      if !reserved { return Some(SpanTableRefused); }
      if large.header.typeId !in types { return Some(UnknownTypeId); }
      var charged := Charge(large.header);
      if charged > external { return Some(ExternalAccountingUnderflow); }
      var unpublished := table.UnpublishLargeForDrop(r);
      if !unpublished { return Some(SpanTableRefused); }
      ghost var t' := table.entries;
      external := external - charged;
      drops := drops + [r];
      NothingSwept(t, m);
      SweptOneMore(t, t, t', m, [], r);
      assert [] + [r] == [r];
      var released := table.ReleaseUnpublishedLarge(id);
      if !released { return Some(SpanTableRefused); }
      LargeRangeReleased(t, t', table.entries, id, m, table.marked, [r]);
      VacatedCharge(t', table.entries, id);
      stats := stats.(reclaimed := stats.reclaimed + 1, reclaimedBytes := stats.reclaimedBytes + large.objectBytes);
      return None;
    }

    /** Queues the owners to sweep, in increasing order, unless they exceed the worklist's bound or
        the worklist cannot grow. */
    method CollectOwners(limit: nat) returns (error: Option<SweepError>, work: seq<nat>)
      ensures error.None? ==> PendingOwners(table.entries, work, |table.entries|) && |work| <= limit
      ensures error.Some? ==> error.value == WorklistFull || error.value == WorklistAllocationFailed
      ensures error == Some(WorklistFull) ==> limit < |table.entries|
    {
      hide IsOwner, PendingOwners;
      error, work := None, [];
      NoOwners(table.entries);
      for i := 0 to |table.entries|
        invariant PendingOwners(table.entries, work, i) && |work| <= i && |work| <= limit
      {
        OwnerPushed(table.entries, work, i);
        if IsOwner(table.entries, i) {
          if |work| == limit { return Some(WorklistFull), work; }
          var refused: bool := *;
          if refused { return Some(WorklistAllocationFailed), work; }
          work := work + [i];
        }
      }
    }

    /** Queues all owners, then sweeps them from the highest entry down. */
    method SweepFull(limit: nat) returns (error: Option<SweepError>)
      requires table.Valid()
      modifies table`entries, table`marked, table`reservedFor, this
      ensures table.Valid() && Imbalance() == old(Imbalance())
      ensures exists mine :: drops == old(drops) + mine
                && Swept(old(table.entries), table.entries, old(table.marked), mine)
      ensures error.Some? && error.value != WorklistFull && error.value != WorklistAllocationFailed ==>
        Explained(error.value, old(table.entries), types, old(external))
      ensures error == Some(WorklistAllocationFailed) ==> table.entries == old(table.entries)
      ensures error == Some(WorklistFull) ==> limit < |table.entries| && table.entries == old(table.entries)
      ensures error.Some? ==> exists stop :: StoppedAt(old(table.entries), table.entries, old(table.marked), stop)
      ensures error.None? ==>
        FullySwept(old(table.entries), table.entries, old(table.marked), old(stats), stats, |drops| - |old(drops)|)
    {
      hide Has, Sound, EpochsStored, TableSound, TotalCharge, Reusable, VerifyReference, Marked, Published,
        SweptFrom, CountedFrom, OwnerStep, PendingOwners, FullySwept, Swept, EntryAccounted, UnknownType, IsOwner, EntryRetained,
        PartlySwept, StoppedAt;
      ghost var t, m := table.entries, table.marked;
      ghost var mine: seq<Ref> := [];
      NothingSwept(t, m);
      NothingStopped(t, m);
      assert drops == old(drops) + [];
      var queued, owners := CollectOwners(limit);
      if queued.Some? { return queued; }
      var work := owners;
      ghost var b: nat := |t|;
      NothingSweptFrom(t, m, stats);
      while work != []
        invariant table.Valid() && Imbalance() == old(Imbalance()) && b <= |table.entries|
        invariant drops == old(drops) + mine && stats.reclaimed == old(stats).reclaimed + |mine|
        invariant SweptFrom(t, table.entries, m, table.marked, mine, b)
        invariant CountedFrom(t, table.entries, old(stats), stats, b)
        invariant PendingOwners(table.entries, work, b)
        decreases |work|
      {
        NextOwner(table.entries, work, b);
        var id := work[|work| - 1];
        work := work[..|work| - 1];
        ghost var t', m', c, before := table.entries, table.marked, stats, external;
        OwnerKinds(t', id);
        NothingPartlySwept(t', m', id);
        if table.entries[id].value.SmallKind? {
          error := SweepSmall(id);
        } else {
          error := SweepLarge(id);
        }
        ghost var more :| drops == old(drops) + mine + more && OwnerStep(t', table.entries, m', table.marked, more, id);
        assert drops == old(drops) + (mine + more);
        StepSwept(t, t', table.entries, m, m', table.marked, mine, more, b, id);
        if error.Some? {
          ExplainedFromStart(t, t', m, m', mine, b, error.value, types, old(external), before);
          ghost var stop: Stop :| stop.span == id && PartlySwept(t', table.entries, m', stop);
          FailedAt(t, t', table.entries, m, m', mine, b, stop);
          return;
        }
        OwnerSwept(t, t', table.entries, m, m', table.marked, mine, more, b, id);
        OwnerCounted(t, t', table.entries, m', table.marked, more, b, id, old(stats), c, stats);
        BelowKept(t', table.entries, m', table.marked, more, work, id);
        b, mine := id, mine + more;
      }
      AllOwnersSwept(t, table.entries, m, table.marked, mine, b, old(stats), stats, work);
      SweptFromSwept(t, table.entries, m, table.marked, mine, b);
      return None;
    }

    /** Drops every payload of a small span, always restarting the search at slot zero. */
    method TeardownSmall(id: nat) returns (error: Option<SweepError>)
      requires table.Valid() && IsSmall(table.entries, id)
      modifies table`entries, this`external, this`drops
      ensures table.Valid() && Imbalance() == old(Imbalance()) && |table.entries| == |old(table.entries)|
      ensures exists mine :: drops == old(drops) + mine && Swept(old(table.entries), table.entries, iset{}, mine)
      ensures error.Some? ==> Explained(error.value, old(table.entries), types, old(external))
      ensures error.None? ==> forall r | Published(table.entries, r) :: r.span != id
    {
      hide Has, Sound, Published, EpochsStored, TableSound, SlotOf, NoneBetween, MarkedIn, Shaped, Swept, OneFewer,
        TotalCharge, Explained, VerifyReference;
      ghost var t := table.entries;
      ghost var mine: seq<Ref> := [];
      NothingSwept(t, iset{});
      while true
        invariant table.Valid() && Imbalance() == old(Imbalance()) && |table.entries| == |t|
        invariant drops == old(drops) + mine && Swept(t, table.entries, iset{}, mine)
        invariant IsSmall(table.entries, id)
        decreases table.entries[id].value.span.allocatedSlots
      {
        var next := table.NextAllocatedReference(id, 0);
        if next.None? { break; }
        ghost var before := table.entries;
        NextSlot(before, id, 0, next.value, table.epoch);
        SlotCounted(before, id, next.value);
        error := DropSmall(next.value);
        if error.Some? {
          ExplainedEarlier(t, table.entries, iset{}, mine, error.value, types, old(external), external);
          return;
        }
        SweptOneMore(t, before, table.entries, iset{}, mine, next.value);
        mine := mine + [next.value];
      }
      NothingLeft(table.entries, id);
      return None;
    }

    /** Drops the payload of a large object and keeps its storage. */
    method TeardownLarge(id: nat) returns (error: Option<SweepError>)
      requires table.Valid() && IsLarge(table.entries, id)
      modifies table`entries, table`marked, this`external, this`drops
      ensures table.Valid() && Imbalance() == old(Imbalance()) && |table.entries| == |old(table.entries)|
      ensures exists mine :: drops == old(drops) + mine && Swept(old(table.entries), table.entries, iset{}, mine)
      ensures error.Some? ==> Explained(error.value, old(table.entries), types, old(external))
      ensures error.None? ==> forall r | Published(table.entries, r) :: r.span != id
    {
      hide Has, Sound, EpochsStored, TableSound, Swept, TotalCharge, SlotOf, OneFewer, VerifyReference, Marked;
      ghost var t := table.entries;
      var r := Ref(id, MINIMUM_SLOT_SIZE_BYTES);
      var large := table.entries[id].value.large;
      NothingSwept(t, iset{});
      assert drops == old(drops) + [];
      if !large.isAllocated { return None; }
      LargeCharges(t, id);
      if large.header.typeId !in types { return Some(UnknownTypeId); }
      var charged := Charge(large.header);
      if charged > external { return Some(ExternalAccountingUnderflow); }
      var unpublished := table.UnpublishLargeForDrop(r);
      if !unpublished { return Some(SpanTableRefused); }
      external := external - charged;
      drops := drops + [r];
      SweptOneMore(t, t, table.entries, iset{}, [], r);
      assert [] + [r] == [r];
      return None;
    }

    /** Heap destruction: reachability is ignored and every published payload is dropped. */
    method TeardownPayloads() returns (error: Option<SweepError>)
      requires table.Valid()
      modifies table`entries, table`marked, this`external, this`drops
      ensures table.Valid() && Imbalance() == old(Imbalance())
      ensures exists mine :: drops == old(drops) + mine && Swept(old(table.entries), table.entries, iset{}, mine)
      ensures error.Some? ==> Explained(error.value, old(table.entries), types, old(external))
      ensures error.None? ==> forall r :: !Published(table.entries, r)
    {
      hide Has, Sound, EpochsStored, TableSound, Swept, TotalCharge, PublishedIn, VerifyReference, Marked, Explained;
      ghost var t := table.entries;
      ghost var mine: seq<Ref> := [];
      NothingSwept(t, iset{});
      for i := 0 to |table.entries|
        invariant table.Valid() && Imbalance() == old(Imbalance()) && |table.entries| == |t|
        invariant drops == old(drops) + mine && Swept(t, table.entries, iset{}, mine)
        invariant forall r | Published(table.entries, r) :: r.span >= i
      {
        ghost var t', now := table.entries, external;
        if table.entries[i].Some? && (table.entries[i].value.SmallKind? || table.entries[i].value.LargeOwner?) {
          if table.entries[i].value.SmallKind? {
            error := TeardownSmall(i);
          } else {
            error := TeardownLarge(i);
          }
          ghost var more :| drops == old(drops) + mine + more && Swept(t', table.entries, iset{}, more);
          assert drops == old(drops) + (mine + more);
          SweptTransitive(t, t', table.entries, iset{}, mine, more);
          if error.Some? {
            ExplainedEarlier(t, t', iset{}, mine, error.value, types, old(external), now);
            return;
          }
          SweptSubset(t', table.entries, more);
          mine := mine + more;
        } else {
          NotPublishedHere(table.entries, i);
        }
      }
      return None;
    }
  }
}
