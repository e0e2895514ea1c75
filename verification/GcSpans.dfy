/** Small spans: slot geometry, the bump cursor, and the free list threaded through dead slot bytes. */
module GcSpans {
  import opened Options
  import opened GcObjects
  import opened GcBitmaps

  const SPAN_SIZE_BYTES: nat := 65536
  const MINIMUM_SLOT_SIZE_BYTES: nat := 16

  // ----- Slot geometry -----

  predicate IsSizeClass(size: nat) {
    MINIMUM_SLOT_SIZE_BYTES <= size < SPAN_SIZE_BYTES && size % MINIMUM_SLOT_SIZE_BYTES == 0
  }

  /** How many whole slots fit behind the minimum-size hole at offset zero. */
  function SlotCount(size: nat): nat
    requires IsSizeClass(size)
  {
    (SPAN_SIZE_BYTES - MINIMUM_SLOT_SIZE_BYTES) / size
  }

  function OffsetForSlot(size: nat, slot: nat): Option<nat>
    requires IsSizeClass(size)
  {
    if slot >= SlotCount(size) then None
    else Some((MINIMUM_SLOT_SIZE_BYTES + slot * size) % SPAN_SIZE_BYTES)
  }

  function SlotForOffset(size: nat, offset: nat): Option<nat>
    requires IsSizeClass(size)
  {
    if offset < MINIMUM_SLOT_SIZE_BYTES then None
    else
      var relative := offset - MINIMUM_SLOT_SIZE_BYTES;
      if relative % size != 0 then None
      else if relative / size < SlotCount(size) then Some(relative / size) else None
  }

  lemma DivisionBounds(n: nat, d: nat)
    requires d > 0
    ensures n / d * d <= n < n / d * d + d
  {
  }

  lemma {:induction false} MultipleOrdered(i: nat, j: nat, d: nat)
    requires i < j
    ensures i * d + d <= j * d
    decreases j - i
  {
    if i + 1 < j {
      MultipleOrdered(i, j - 1, d);
      assert j * d == (j - 1) * d + d;
    } else {
      assert j * d == i * d + d;
    }
  }

  lemma ExactQuotient(q: nat, d: nat)
    requires d > 0
    ensures q * d / d == q && q * d % d == 0
  {
    var n := q * d;
    DivisionBounds(n, d);
    if n / d < q {
      MultipleOrdered(n / d, q, d);
    } else if q < n / d {
      MultipleOrdered(q, n / d, d);
    }
    assert n == n / d * d + n % d;
  }

  lemma SlotFits(size: nat, slot: nat)
    requires IsSizeClass(size) && slot < SlotCount(size)
    ensures SlotCount(size) <= MAX_SMALL_OBJECT_SLOTS
    ensures slot * size + size <= SPAN_SIZE_BYTES - MINIMUM_SLOT_SIZE_BYTES
    ensures OffsetForSlot(size, slot) == Some(MINIMUM_SLOT_SIZE_BYTES + slot * size)
  {
    var n := SPAN_SIZE_BYTES - MINIMUM_SLOT_SIZE_BYTES;
    DivisionBounds(n, size);
    MultipleOrdered(slot, SlotCount(size), size);
    if SlotCount(size) > MAX_SMALL_OBJECT_SLOTS {
      MultipleOrdered(MAX_SMALL_OBJECT_SLOTS, SlotCount(size), size);
    }
  }

  /** Slot indices and in-span offsets are two names for the same thing. */
  lemma SlotOffsetRoundTrip(size: nat, slot: nat, offset: nat)
    requires IsSizeClass(size) && offset < SPAN_SIZE_BYTES
    ensures OffsetForSlot(size, slot) == Some(offset) <==> SlotForOffset(size, offset) == Some(slot)
  {
    if slot < SlotCount(size) {
      SlotFits(size, slot);
      ExactQuotient(slot, size);
    }
    if SlotForOffset(size, offset).Some? {
      var relative := offset - MINIMUM_SLOT_SIZE_BYTES;
      assert relative == relative / size * size + relative % size;
      SlotFits(size, relative / size);
    }
  }

  /** Distinct slots occupy disjoint bytes inside the span, clear of the reserved region. */
  lemma SlotsDisjoint(size: nat, i: nat, j: nat)
    requires IsSizeClass(size) && i < j < SlotCount(size)
    ensures MINIMUM_SLOT_SIZE_BYTES <= OffsetForSlot(size, i).value
    ensures OffsetForSlot(size, i).value + size <= OffsetForSlot(size, j).value
    ensures OffsetForSlot(size, j).value + size <= SPAN_SIZE_BYTES
  {
    SlotFits(size, i);
    SlotFits(size, j);
    MultipleOrdered(i, j, size);
  }

  /** No further slot would fit: what is left over is smaller than a slot. */
  lemma SlotsFillSpan(size: nat)
    requires IsSizeClass(size)
    ensures MINIMUM_SLOT_SIZE_BYTES + SlotCount(size) * size <= SPAN_SIZE_BYTES
    ensures MINIMUM_SLOT_SIZE_BYTES + SlotCount(size) * size + size > SPAN_SIZE_BYTES
  {
    DivisionBounds(SPAN_SIZE_BYTES - MINIMUM_SLOT_SIZE_BYTES, size);
  }

  // ----- Span metadata -----

  /** The first bytes of a slot. A free-list link overwrites the type id of a dead object and nothing else. */
  datatype Header = Header(typeId: nat, external: Option<nat>)

  /** Mark bits belong to the epoch stored beside them. */
  datatype MarkBits = MarkBits(epoch: Option<nat>, bits: Bitmap)

  datatype SmallSpan = SmallSpan(
    slotSize: nat,
    space: Space,
    allocations: Bitmap,
    marks: MarkBits,
    headers: seq<Header>,
    bumpCursor: nat,
    freeHead: Option<nat>,
    allocatedSlots: nat)

  function NewSpan(slotSize: nat, space: Space, garbage: seq<Header>): SmallSpan {
    SmallSpan(slotSize, space, EmptyBitmap(), MarkBits(None, EmptyBitmap()), garbage, 0, None, 0)
  }

  ghost predicate Shaped(s: SmallSpan) {
    && IsSizeClass(s.slotSize)
    && |s.headers| == SlotCount(s.slotSize) <= MAX_SMALL_OBJECT_SLOTS
    && s.bumpCursor <= |s.headers|
    && (forall i: int | Has(s.allocations, i) :: 0 <= i < s.bumpCursor && s.headers[i].typeId != 0)
    && s.allocatedSlots == |Slots(s.allocations)|
  }

  /** Metadata and storage as they are when a span is installed or pooled. */
  predicate IsNew(s: SmallSpan) {
    && IsSizeClass(s.slotSize) && |s.headers| == SlotCount(s.slotSize)
    && s == NewSpan(s.slotSize, s.space, s.headers)
  }

  // ----- Free-list links -----

  /** Zero ends the list; slot `n` is stored as `n + 1` in sixteen bits. */
  function EncodeLink(next: Option<nat>): nat {
    if next.Some? then (next.value + 1) % 65536 else 0
  }

  function DecodeLink(word: nat): Option<nat> {
    if 1 <= word <= MAX_SMALL_OBJECT_SLOTS then Some(word - 1) else None
  }

  /** Following links from `head` visits exactly `list` and then stops. */
  ghost predicate Threads(headers: seq<Header>, head: Option<nat>, list: seq<int>)
    decreases |list|
  {
    if list == [] then head.None?
    else
      && 0 <= list[0] < |headers| && head == Some(list[0])
      && Threads(headers, DecodeLink(headers[list[0]].typeId), list[1..])
  }

  ghost predicate IsFreeList(s: SmallSpan, list: seq<int>) {
    && NoDuplicates(list)
    && (forall i | i in list :: 0 <= i < s.bumpCursor && !Has(s.allocations, i))
    && Threads(s.headers, s.freeHead, list)
  }

  ghost predicate ListsAllDead(s: SmallSpan, list: seq<int>) {
    forall i | 0 <= i < s.bumpCursor && !Has(s.allocations, i) :: i in list
  }

  /** Only an Old span has a free list; it never names a live slot and never repeats. */
  ghost predicate Sound(s: SmallSpan) {
    && Shaped(s)
    && (s.space != Old ==> s.freeHead.None?)
    && exists list :: IsFreeList(s, list)
  }

  /** Between sweeps the free list of an Old span names every dead slot below the cursor exactly once. */
  ghost predicate Reusable(s: SmallSpan) {
    && Sound(s)
    && (s.space == Old ==> exists list :: IsFreeList(s, list) && ListsAllDead(s, list))
  }

  /** The list is determined by the head and the bytes, so it cannot be cyclic or shared. */
  lemma {:induction false} ThreadsUnique(headers: seq<Header>, head: Option<nat>, a: seq<int>, b: seq<int>)
    requires Threads(headers, head, a) && Threads(headers, head, b)
    ensures a == b
    decreases |a|
  {
    if a != [] && b != [] {
      ThreadsUnique(headers, DecodeLink(headers[a[0]].typeId), a[1..], b[1..]);
      assert a == [a[0]] + a[1..] && b == [b[0]] + b[1..];
    }
  }

  /** Writing a slot that is not on the list leaves the list intact. */
  lemma {:induction false} ThreadsKept(headers: seq<Header>, head: Option<nat>, list: seq<int>, slot: nat, h: Header)
    requires Threads(headers, head, list) && slot < |headers| && slot !in list
    ensures Threads(headers[slot := h], head, list)
    decreases |list|
  {
    if list != [] {
      ThreadsKept(headers, DecodeLink(headers[list[0]].typeId), list[1..], slot, h);
    }
  }

  // ----- Transitions of one span -----

  /** The slot's bytes are initialised, then the slot is published. */
  function Commit(s: SmallSpan, slot: nat, h: Header): SmallSpan
    requires slot < |s.headers| && slot < BITMAP_BITS
  {
    SmallSpan(s.slotSize, s.space, Insert(s.allocations, slot), s.marks, s.headers[slot := h],
              s.bumpCursor, s.freeHead, s.allocatedSlots + 1)
  }

  function TakeListed(s: SmallSpan): SmallSpan
    requires s.freeHead.Some? && s.freeHead.value < |s.headers|
  {
    SmallSpan(s.slotSize, s.space, s.allocations, s.marks, s.headers,
              s.bumpCursor, DecodeLink(s.headers[s.freeHead.value].typeId), s.allocatedSlots)
  }

  function TakeBump(s: SmallSpan): SmallSpan {
    SmallSpan(s.slotSize, s.space, s.allocations, s.marks, s.headers,
              s.bumpCursor + 1, s.freeHead, s.allocatedSlots)
  }

  function Unpublish(s: SmallSpan, slot: nat): SmallSpan
    requires slot < BITMAP_BITS && s.allocatedSlots > 0
  {
    SmallSpan(s.slotSize, s.space, Remove(s.allocations, slot), s.marks, s.headers,
              s.bumpCursor, s.freeHead, s.allocatedSlots - 1)
  }

  /** Stores the current head in the dead slot and makes the slot the new head. */
  function LinkFree(s: SmallSpan, slot: nat): SmallSpan
    requires slot < |s.headers|
  {
    var link := Header(EncodeLink(s.freeHead), s.headers[slot].external);
    SmallSpan(s.slotSize, s.space, s.allocations, s.marks, s.headers[slot := link],
              s.bumpCursor, Some(slot), s.allocatedSlots)
  }

  lemma LiveCounted(s: SmallSpan, slot: int)
    requires Shaped(s) && Has(s.allocations, slot)
    ensures s.allocatedSlots > 0
  {
    hide Has, Insert, Remove, SlotCount, IsSizeClass;
    assert slot in Slots(s.allocations);
  }

  lemma HeadListed(s: SmallSpan, list: seq<int>)
    requires Shaped(s) && IsFreeList(s, list)
    ensures s.freeHead.Some? <==> list != []
    ensures s.freeHead.Some? ==> s.freeHead.value == list[0] && s.freeHead.value < s.bumpCursor && !Has(s.allocations, list[0])
  {
    hide Has, Insert, Remove, SlotCount, IsSizeClass;
    if list != [] {
      assert list[0] in list;
    }
  }

  lemma CommittedShape(s: SmallSpan, slot: nat, h: Header)
    requires Shaped(s) && slot < s.bumpCursor && !Has(s.allocations, slot) && h.typeId != 0
    ensures Shaped(Commit(s, slot, h))
  {
    hide Has, Insert, Remove, SlotCount, IsSizeClass;
    InsertedSlots(s.allocations, slot);
  }

  lemma ListedAllocation(s: SmallSpan, list: seq<int>, h: Header)
    requires Shaped(s) && IsFreeList(s, list) && list != [] && h.typeId != 0
    requires s.freeHead.Some? && s.freeHead.value < |s.headers|
    ensures IsFreeList(Commit(TakeListed(s), s.freeHead.value, h), list[1..])
    ensures ListsAllDead(s, list) ==> ListsAllDead(Commit(TakeListed(s), s.freeHead.value, h), list[1..])
  {
    hide Has, Insert, Remove, SlotCount, IsSizeClass;
    HeadListed(s, list);
    var slot := s.freeHead.value;
    var s' := Commit(TakeListed(s), slot, h);
    assert list == [list[0]] + list[1..];
    ThreadsKept(s.headers, TakeListed(s).freeHead, list[1..], slot, h);
    assert forall i | i in list[1..] :: i in list && i != slot;
  }

  lemma BumpAllocation(s: SmallSpan, list: seq<int>, h: Header)
    requires Shaped(s) && IsFreeList(s, list) && s.bumpCursor < |s.headers| && h.typeId != 0
    ensures IsFreeList(Commit(TakeBump(s), s.bumpCursor, h), list)
    ensures ListsAllDead(s, list) ==> ListsAllDead(Commit(TakeBump(s), s.bumpCursor, h), list)
  {
    hide Has, Insert, Remove, SlotCount, IsSizeClass;
    ThreadsKept(s.headers, s.freeHead, list, s.bumpCursor, h);
  }

  lemma Unpublished(s: SmallSpan, slot: nat)
    requires Sound(s) && Has(s.allocations, slot)
    ensures s.allocatedSlots > 0 && Sound(Unpublish(s, slot))
  {
    hide Has, Insert, Remove, SlotCount, IsSizeClass;
    LiveCounted(s, slot);
    RemovedSlots(s.allocations, slot);
    var list :| IsFreeList(s, list);
    assert IsFreeList(Unpublish(s, slot), list);
  }

  lemma LinkedFree(s: SmallSpan, list: seq<int>, slot: nat)
    requires Shaped(s) && IsFreeList(s, list) && slot < s.bumpCursor && !Has(s.allocations, slot) && slot !in list
    ensures Shaped(LinkFree(s, slot)) && IsFreeList(LinkFree(s, slot), [slot] + list)
  {
    hide Has, Insert, Remove, SlotCount, IsSizeClass;
    var s' := LinkFree(s, slot);
    ThreadsKept(s.headers, s.freeHead, list, slot, s'.headers[slot]);
    HeadListed(s, list);
    assert DecodeLink(EncodeLink(s.freeHead)) == s.freeHead;
    assert ([slot] + list)[1..] == list;
  }

  // ----- What the transitions keep -----

  predicate HasFreeSlot(s: SmallSpan) {
    match s.space
    case Survivor(_) => false
    case Eden => s.bumpCursor < |s.headers|
    case Old => s.freeHead.Some? || s.bumpCursor < |s.headers|
  }

  lemma SpanBounds(s: SmallSpan)
    requires Sound(s)
    ensures IsSizeClass(s.slotSize) && |s.headers| == SlotCount(s.slotSize) <= MAX_SMALL_OBJECT_SLOTS
    ensures forall i: int | Has(s.allocations, i) :: 0 <= i < s.bumpCursor <= |s.headers|
  {
    hide Has, SlotCount, IsSizeClass, IsFreeList;
  }

  lemma ShapeBounds(s: SmallSpan)
    requires Shaped(s)
    ensures s.bumpCursor <= |s.headers| <= MAX_SMALL_OBJECT_SLOTS
  {
  }

  lemma HeadInRange(s: SmallSpan)
    requires Sound(s) && s.freeHead.Some?
    ensures s.freeHead.value < s.bumpCursor <= |s.headers| && !Has(s.allocations, s.freeHead.value)
  {
    hide Has, SlotCount, IsSizeClass;
    var list :| IsFreeList(s, list);
    HeadListed(s, list);
  }

  /** Reusing a listed slot. */
  lemma ListedAllocationKeeps(s: SmallSpan, h: Header)
    requires Sound(s) && s.freeHead.Some? && s.freeHead.value < |s.headers| && h.typeId != 0
    ensures Sound(Commit(TakeListed(s), s.freeHead.value, h))
    ensures Reusable(s) ==> Reusable(Commit(TakeListed(s), s.freeHead.value, h))
  {
    hide Has, Insert, SlotCount, IsSizeClass, IsFreeList, ListsAllDead;
    var list :| IsFreeList(s, list);
    HeadListed(s, list);
    ListedAllocation(s, list, h);
    CommittedShape(TakeListed(s), s.freeHead.value, h);
    if Reusable(s) && s.space == Old {
      var all :| IsFreeList(s, all) && ListsAllDead(s, all);
      HeadListed(s, all);
      ListedAllocation(s, all, h);
    }
  }

  /** Taking the next never-used slot. */
  lemma BumpAllocationKeeps(s: SmallSpan, h: Header)
    requires Sound(s) && s.bumpCursor < |s.headers| && h.typeId != 0
    ensures !Has(s.allocations, s.bumpCursor)
    ensures Sound(Commit(TakeBump(s), s.bumpCursor, h))
    ensures Reusable(s) ==> Reusable(Commit(TakeBump(s), s.bumpCursor, h))
  {
    hide Has, Insert, SlotCount, IsSizeClass, IsFreeList, ListsAllDead;
    var list :| IsFreeList(s, list);
    BumpAllocation(s, list, h);
    CommittedShape(TakeBump(s), s.bumpCursor, h);
    if Reusable(s) && s.space == Old {
      var all :| IsFreeList(s, all) && ListsAllDead(s, all);
      BumpAllocation(s, all, h);
    }
  }

  ghost predicate AllSlotsLive(s: SmallSpan) {
    IsSizeClass(s.slotSize) && forall slot: nat | slot < SlotCount(s.slotSize) :: Has(s.allocations, slot)
  }

  /** An Old span has no slot to offer exactly when every slot is live. */
  lemma FullMeansAllLive(s: SmallSpan)
    requires Reusable(s) && s.space == Old
    ensures !HasFreeSlot(s) <==> AllSlotsLive(s)
  {
    hide Has, SlotCount, IsSizeClass;
    if !HasFreeSlot(s) {
      var all :| IsFreeList(s, all) && ListsAllDead(s, all);
      HeadListed(s, all);
    } else if s.freeHead.Some? {
      HeadInRange(s);
    } else {
      assert !Has(s.allocations, s.bumpCursor);
    }
  }

  lemma UnpublishedShape(s: SmallSpan, slot: nat)
    requires Shaped(s) && Has(s.allocations, slot)
    ensures s.allocatedSlots > 0 && Shaped(Unpublish(s, slot))
  {
    hide Has, Insert, Remove, SlotCount, IsSizeClass;
    LiveCounted(s, slot);
    RemovedSlots(s.allocations, slot);
  }

  lemma UnlistedStays(s: SmallSpan, all: seq<int>, slot: nat)
    requires Shaped(s) && s.allocatedSlots > 0 && Has(s.allocations, slot)
    requires IsFreeList(s, all) && ListsAllDead(s, all)
    ensures slot < s.bumpCursor && slot !in all && IsFreeList(Unpublish(s, slot), all)
    ensures ListsAllDead(LinkFree(Unpublish(s, slot), slot), [slot] + all)
  {
    hide Has, Remove, SlotCount, IsSizeClass, Threads;
  }

  /** Reclaiming a slot of an Old span puts it at the front of the list. */
  lemma ReclaimedListed(s: SmallSpan, slot: nat)
    requires Reusable(s) && s.space == Old && Has(s.allocations, slot)
    ensures s.allocatedSlots > 0 && slot < |s.headers|
    ensures Sound(LinkFree(Unpublish(s, slot), slot)) && Reusable(LinkFree(Unpublish(s, slot), slot))
  {
    hide Has, Remove, IsFreeList, ListsAllDead, IsSizeClass;
    var all :| IsFreeList(s, all) && ListsAllDead(s, all);
    UnpublishedShape(s, slot);
    UnlistedStays(s, all, slot);
    LinkedFree(Unpublish(s, slot), all, slot);
  }

  lemma EmptyList(s: SmallSpan)
    requires Shaped(s) && s.freeHead.None?
    ensures IsFreeList(s, []) && Sound(s)
  {
    hide Shaped;
    assert IsFreeList(s, []);
  }

  lemma YoungReusable(s: SmallSpan)
    requires Sound(s) && s.space != Old
    ensures Reusable(s)
  {
  }

  // ----- Rebuilding a free list -----

  /** The list names exactly the dead slots below `n`. */
  ghost predicate ListsDeadBelow(s: SmallSpan, list: seq<int>, n: nat) {
    forall i :: i in list <==> 0 <= i < n && !Has(s.allocations, i)
  }

  /** The highest slot first. */
  ghost predicate Descending(list: seq<int>) { forall i, j | 0 <= i < j < |list| :: list[i] > list[j] }

  lemma DescendingStep(s: SmallSpan, list: seq<int>, n: nat)
    requires ListsDeadBelow(s, list, n) && Descending(list)
    ensures Descending([n] + list)
  {
    forall j | 0 <= j < |list| ensures n > list[j] {
      assert list[j] in list;
    }
  }

  /** Every dead slot below the cursor is on the free list, the highest first. */
  ghost predicate RelinkedDescending(s: SmallSpan) {
    exists list :: IsFreeList(s, list) && ListsAllDead(s, list) && Descending(list)
  }

  lemma RebuildStep(s: SmallSpan, list: seq<int>, n: nat)
    requires Shaped(s) && n < s.bumpCursor && IsFreeList(s, list) && ListsDeadBelow(s, list, n)
    ensures if Has(s.allocations, n) then ListsDeadBelow(s, list, n + 1)
            else
              && Shaped(LinkFree(s, n)) && IsFreeList(LinkFree(s, n), [n] + list)
              && ListsDeadBelow(LinkFree(s, n), [n] + list, n + 1)
  {
    hide Has, Shaped, IsFreeList;
    if !Has(s.allocations, n) {
      LinkedFree(s, list, n);
    }
  }

  lemma RebuildDone(s: SmallSpan, list: seq<int>)
    requires Shaped(s) && IsFreeList(s, list) && ListsDeadBelow(s, list, s.bumpCursor) && s.space == Old && Descending(list)
    ensures Sound(s) && Reusable(s) && RelinkedDescending(s)
  {
    hide Has, Shaped, IsFreeList;
    assert ListsAllDead(s, list);
  }

  lemma RebuildStart(s: SmallSpan)
    requires Shaped(s) && s.freeHead.None?
    ensures IsFreeList(s, []) && ListsDeadBelow(s, [], 0)
  {
    hide Has, Shaped;
    EmptyList(s);
  }
}
