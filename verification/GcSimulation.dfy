/** The collector's view of the heap and the span table side by side. */
module GcSimulation {
  import opened Options
  import opened GcObjects
  import opened GcLiveness
  import opened GcWeakPhases
  import GcTricolor
  import opened GcGenerations
  import opened GcCollections
  import opened GcRuns
  import opened GcSweepStops
  import opened GcBitmaps
  import opened GcSpans
  import opened GcSpanTable
  import opened GcSweep

  predicate SameSpan(span: Span, k: Kind) {
    match k
    case SmallKind(s) =>
      span.Small? && span.space == s.space && IsSizeClass(s.slotSize) && span.slotCount == SlotCount(s.slotSize)
    case LargeOwner(_) => span.Large?
    case LargeContinuation(_, _) => false
  }

  /** The same objects, in spans of the same generation and capacity. */
  ghost predicate Represents(s: State, t: Table) {
    && (forall r :: r in s.objects <==> Published(t, r))
    && (forall id: nat :: id in s.spans <==> IsOwner(t, id))
    && (forall id: nat | id in s.spans && IsOwner(t, id) :: SameSpan(s.spans[id], t[id].value))
  }

  /** The collector's marks are the table's. */
  ghost predicate SameMarks(marks: set<Ref>, m: iset<Ref>) { forall r :: r in marks <==> r in m }

  // ----- Occupancy -----

  /** The references of a set of slots. */
  ghost function SlotRefs(id: nat, size: nat, slots: set<int>): set<Ref> {
    set k: nat | k in slots :: RefAt(id, size, k)
  }

  lemma {:induction false} SlotRefsCounted(id: nat, size: nat, slots: set<int>, count: nat)
    requires IsSizeClass(size) && (forall k | k in slots :: 0 <= k < SlotCount(size)) && |slots| == count
    ensures |SlotRefs(id, size, slots)| == count
  {
    hide IsSizeClass, SlotCount;
    if count == 0 {
      assert SlotRefs(id, size, slots) == {};
    } else {
      var x := Member(slots);
      var rest := slots - {x};
      SlotRefsCounted(id, size, rest, count - 1);
      forall k: nat | k in rest ensures RefAt(id, size, k) != RefAt(id, size, x) {
        RefsDiffer(id, size, k, x);
      }
      assert SlotRefs(id, size, slots) == SlotRefs(id, size, rest) + {RefAt(id, size, x)};
    }
  }

  lemma RefsDiffer(id: nat, size: nat, j: nat, k: nat)
    requires IsSizeClass(size) && j != k
    ensures RefAt(id, size, j) != RefAt(id, size, k)
  {
    if j < k {
      MultipleOrdered(j, k, size);
    } else {
      MultipleOrdered(k, j, size);
    }
  }

  /**
   * Three ways to count a span's survivors agree: the marker's, by the references it marked; the
   * preparation's, by the bits of the mark bitmap; and the sweep's, by live slots that carry a mark.
   */
  lemma OccupancyAgrees(s: State, t: Table, id: nat, epoch: nat, marks: set<Ref>, m: iset<Ref>)
    requires Represents(s, t) && TableSound(t) && EpochsStored(t, epoch) && IsSmall(t, id)
    requires forall r :: r in m <==> Marked(t, epoch, r)
    requires SameMarks(marks, m) && marks <= s.objects.Keys
    ensures var span := t[id].value.span;
      |LiveIn(marks, id)| == MarkedSlots(span, epoch) == |LiveBelow(span, epoch, MAX_SMALL_OBJECT_SLOTS)|
  {
    hide Has, SlotForOffset, IsSizeClass, SlotCount, IsFreeList, EpochsStored;
    var span := t[id].value.span;
    TableEntry(t, id);
    SpanBounds(span);
    var live := LiveBelow(span, epoch, MAX_SMALL_OBJECT_SLOTS);
    MarkedAreLive(s, t, id, epoch, marks, m);
    SlotRefsCounted(id, span.slotSize, live, |live|);
    assert LiveIn(marks, id) == SlotRefs(id, span.slotSize, live);
  }

  /** Mark bits and marked references of one slot, and the other way round. */
  lemma SlotMarked(t: Table, id: nat, epoch: nat, slot: nat)
    requires TableSound(t) && IsSmall(t, id) && slot < |t[id].value.span.headers|
    ensures var span := t[id].value.span; var r := RefAt(id, span.slotSize, slot);
      && (Marked(t, epoch, r) <==> MarkBit(span, epoch, slot))
      && (Published(t, r) <==> Has(span.allocations, slot))
  {
    hide Has, SlotForOffset, IsSizeClass, SlotCount, IsFreeList;
    var span := t[id].value.span;
    TableEntry(t, id);
    SpanBounds(span);
    RefNamesSlot(id, span, slot, RefAt(id, span.slotSize, slot));
  }

  lemma MarkedNamed(t: Table, id: nat, epoch: nat, r: Ref)
    requires TableSound(t) && IsSmall(t, id) && r.span == id && Marked(t, epoch, r)
    requires EpochsStored(t, epoch)
    ensures var span := t[id].value.span;
      && SlotOf(span, r).Some? && MarkBit(span, epoch, SlotOf(span, r).value) && SlotOf(span, r).value < |span.headers|
      && r == RefAt(id, span.slotSize, SlotOf(span, r).value)
  {
    hide Has, SlotForOffset, IsSizeClass, SlotCount, IsFreeList;
    var span := t[id].value.span;
    TableEntry(t, id);
    SpanBounds(span);
    assert EpochsIn(t[id].value, epoch);
    RefNamesSlot(id, span, SlotOf(span, r).value, r);
  }

  /** A marked slot of the span is a live slot, and its reference is marked. */
  lemma MarkedAreLive(s: State, t: Table, id: nat, epoch: nat, marks: set<Ref>, m: iset<Ref>)
    requires Represents(s, t) && TableSound(t) && EpochsStored(t, epoch) && IsSmall(t, id)
    requires forall r :: r in m <==> Marked(t, epoch, r)
    requires SameMarks(marks, m) && marks <= s.objects.Keys
    ensures var span := t[id].value.span; var live := LiveBelow(span, epoch, MAX_SMALL_OBJECT_SLOTS);
      && (span.marks.epoch == Some(epoch) ==> Slots(span.marks.bits) == live) && (span.marks.epoch != Some(epoch) ==> live == {})
      && LiveIn(marks, id) == SlotRefs(id, span.slotSize, live)
  {
    hide Has, SlotForOffset, IsSizeClass, SlotCount, IsFreeList, Marked, Published, TableSound, RefAt, SlotOf;
    var span := t[id].value.span;
    var live := LiveBelow(span, epoch, MAX_SMALL_OBJECT_SLOTS);
    TableEntry(t, id);
    SpanBounds(span);
    assert EpochsIn(t[id].value, epoch);
    forall k: nat | k < |span.headers| && MarkBit(span, epoch, k)
      ensures k in live && RefAt(id, span.slotSize, k) in LiveIn(marks, id)
    {
      SlotMarked(t, id, epoch, k);
      RefSpan(id, span.slotSize, k);
    }
    forall k: nat | k in live ensures RefAt(id, span.slotSize, k) in LiveIn(marks, id) {
      assert k < |span.headers|;
    }
    forall r | r in LiveIn(marks, id) ensures exists k: nat :: k in live && r == RefAt(id, span.slotSize, k) {
      MarkedNamed(t, id, epoch, r);
      var k := SlotOf(span, r).value;
      assert k in live && r == RefAt(id, span.slotSize, k);
    }
    if span.marks.epoch == Some(epoch) {
      BitsAreLive(span, epoch, live);
    }
  }

  lemma RefSpan(id: nat, size: nat, slot: nat)
    ensures RefAt(id, size, slot).span == id
  {
  }

  lemma BitsAreLive(span: SmallSpan, epoch: nat, live: set<int>)
    requires span.marks.epoch == Some(epoch) && BitsInSpan(span)
    requires live == LiveBelow(span, epoch, MAX_SMALL_OBJECT_SLOTS)
    requires forall k: nat | k < |span.headers| && MarkBit(span, epoch, k) :: k in live
    ensures Slots(span.marks.bits) == live
  {
  }

  // ----- Steps -----

  /** The table's full sweep takes a representing table to one that represents the collected heap. */
  lemma SweepSimulates(
    s: State, t: Table, s': State, t': Table, marks: set<Ref>, m: iset<Ref>, owners: seq<Ref>, c: Stats, c': Stats, drops: nat)
    requires Represents(s, t) && SameMarks(marks, m)
    requires MajorCollected(s, s', marks, owners) && FullySwept(t, t', m, c, c', drops)
    ensures Represents(s', t')
  {
    hide PublishedIn, OwnerWorklist, OwnerRecords, AfterWeakPhases, TableReusable, Balanced, Sum, SameCohort, SameSpan;
    var p := MajorProblem(s);
    LeastIsClosed(p, marks);
    AfterWeakPhasesShrinks(p, marks);
    forall r ensures r in s'.objects <==> Published(t', r) {
    }
    forall id: nat ensures id in s'.spans <==> IsOwner(t', id) {
      if id in s'.spans {
        var r :| r in LiveIn(marks, id);
        PublishedOwned(t', r);
      }
      if IsOwner(t', id) {
        assert EntryRetained(t, t', id);
        var r :| Published(t', r) && r.span == id;
        assert r in LiveIn(marks, id);
      }
    }
    forall id: nat | id in s'.spans && IsOwner(t', id) ensures SameSpan(s'.spans[id], t'[id].value) {
      assert EntryRetained(t, t', id);
      CohortSpans(s.spans[id], t[id].value, t'[id].value);
    }
  }

  /** A full sweep that stops simulates the collector's sweep that stops at the same address. */
  lemma FailedSweepSimulates(
    s: State, t: Table, t': Table, marks: set<Ref>, m: iset<Ref>, owners: seq<Ref>, stop: Stop)
    requires Represents(s, t) && SameMarks(marks, m)
    requires LeastClosed(MajorProblem(s), marks) && OwnerWorklist(MajorProblem(s), marks, owners)
    requires StoppedAt(t, t', m, stop)
    ensures exists s' :: MajorStopped(s, s', marks, owners, stop) && Represents(s', t')
  {
    hide LeastClosed, OwnerWorklist, OwnerRecords, AfterWeakPhases, Represents, StoppedAt, MajorBefore;
    var p := MajorProblem(s);
    GcTricolor.WorklistFacts(p, marks, owners);
    var s' := s.(
      objects := Without(AfterWeakPhases(p, marks), DeadIn(p, marks, MajorBefore(stop))),
      spans := (map id | id in s.spans && (id <= stop.span || LiveIn(marks, id) != {}) :: s.spans[id]),
      pending := s.pending + OwnerRecords(p.scope - marks, s.objects, owners));
    assert MajorStopped(s, s', marks, owners, stop);
    StoppedRepresents(s, t, s', t', marks, m, owners, stop);
  }

  lemma StoppedRepresents(
    s: State, t: Table, s': State, t': Table, marks: set<Ref>, m: iset<Ref>, owners: seq<Ref>, stop: Stop)
    requires Represents(s, t) && SameMarks(marks, m)
    requires MajorStopped(s, s', marks, owners, stop) && StoppedAt(t, t', m, stop)
    ensures Represents(s', t')
  {
    hide PublishedIn, OwnerWorklist, OwnerRecords, AfterWeakPhases, SameCohort, SameSpan;
    var p := MajorProblem(s);
    LeastIsClosed(p, marks);
    AfterWeakPhasesShrinks(p, marks);
    forall r ensures r in s'.objects <==> Published(t', r) {
    }
    forall id: nat ensures LiveIn(marks, id) != {} <==> OccupiedBy(t, id, m) {
      if r :| r in LiveIn(marks, id) {
        assert Published(t, r) && r in m;
      }
      if OccupiedBy(t, id, m) {
        var r :| Published(t, r) && r in m && r.span == id;
        assert r in LiveIn(marks, id);
      }
    }
    forall id: nat | id in s'.spans && IsOwner(t', id) ensures SameSpan(s'.spans[id], t'[id].value) {
      assert OwnerKept(t, t', id);
      CohortSpans(s.spans[id], t[id].value, t'[id].value);
    }
  }

  lemma PublishedOwned(t: Table, r: Ref)
    requires Published(t, r)
    ensures IsOwner(t, r.span)
  {
  }

  lemma CohortSpans(span: Span, k: Kind, k': Kind)
    requires SameSpan(span, k) && SameCohort(k, k')
    ensures SameSpan(span, k')
  {
  }

  /** Owners and cohorts after one small span was touched. */
  lemma TouchedSpans(s: State, t: Table, t': Table, id: nat)
    requires Represents(s, t) && OneSpanTouched(t, t', id)
    ensures forall i: nat :: IsOwner(t', i) <==> IsOwner(t, i)
    ensures forall i: nat | i in s.spans && IsOwner(t', i) :: SameSpan(s.spans[i], t'[i].value)
  {
    hide Published;
    forall i: nat | i in s.spans && IsOwner(t', i) ensures SameSpan(s.spans[i], t'[i].value) {
      if i == id {
        CohortSpans(s.spans[i], t[i].value, t'[i].value);
      }
    }
  }

  /** Allocating in an Eden span simulates the Young allocation step, in an Old span the Old one. */
  lemma AllocationSimulates(s: State, t: Table, s': State, t': Table, r: Ref, h: Header, n: nat, o: Object)
    requires Represents(s, t) && OneSpanTouched(t, t', r.span) && OneMore(t, t', r, h)
    requires AllocatedYoung(s, s', r, n, o) || AllocatedOld(s, s', r, n, o)
    ensures Represents(s', t')
  {
    hide Published, VerifyReference, Publishable, SameSpan, IsOwner;
    TouchedSpans(s, t, t', r.span);
    SmallOwned(t, r.span);
    RememberedCohort(s, s', r, n, o, t');
  }

  lemma SmallOwned(t: Table, id: nat)
    requires IsSmall(t, id)
    ensures IsOwner(t, id)
  {
  }

  /** Dirtying a card changes no span's generation or capacity. */
  lemma RememberedCohort(s: State, s': State, r: Ref, n: nat, o: Object, t: Table)
    requires r.span in s.spans && (AllocatedYoung(s, s', r, n, o) || AllocatedOld(s, s', r, n, o))
    ensures s'.objects == s.objects[r := o] && s'.spans.Keys == s.spans.Keys
    ensures forall i: nat | i in s.spans && IsOwner(t, i) :: SameSpan(s'.spans[i], t[i].value) <==> SameSpan(s.spans[i], t[i].value)
  {
    hide Publishable;
  }

  /** The table allocates exactly where the collector's step may put the object. */
  lemma AllocationEnabled(s: State, t: Table, t': Table, r: Ref, h: Header)
    requires Represents(s, t) && OneSpanTouched(t, t', r.span) && OneMore(t, t', r, h)
    ensures t[r.span].value.span.space == Eden ==> EdenSlot(s, r)
    ensures t[r.span].value.span.space == Old ==> OldSlot(s, r)
  {
    hide Published, VerifyReference;
    SmallOwned(t, r.span);
    assert SameSpan(s.spans[r.span], t[r.span].value);
  }

  /** Publishing a large object over vacant entries. */
  lemma LargeSimulates(s: State, t: Table, s': State, t': Table, id: nat, l: LargeSpan, o: Object)
    requires Represents(s, t) && VacantRange(t, id, l.spanCount) && LargePlaced(t, t', id, l, l.spanCount)
    requires OneMore(t, t', Ref(id, MINIMUM_SLOT_SIZE_BYTES), l.header)
    requires AllocatedLarge(s, s', Ref(id, MINIMUM_SLOT_SIZE_BYTES), o)
    ensures Represents(s', t')
  {
    hide Published, VerifyReference, Publishable;
    assert t'[id + 0] == LargeEntry(id, l, 0);
    forall i: nat | id <= i < id + l.spanCount ensures i < |t'| && t'[i] == LargeEntry(id, l, i - id) && !IsOwner(t, i) {
      assert t'[id + (i - id)] == LargeEntry(id, l, i - id);
    }
    forall i: nat ensures i in s'.spans <==> IsOwner(t', i) {
      if !(id <= i < id + l.spanCount) && i < |t'| {
        assert t'[i] == t[i];
      }
    }
  }
}
