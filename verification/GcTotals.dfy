/** What the accounts of a sweep count: the published objects of the table, their bytes and their external charges. */
module GcTotals {
  import opened Options
  import opened GcObjects
  import opened GcBitmaps
  import opened GcSpans
  import opened GcSpanTable
  import opened GcSweep

  /** Storage of an object: its slot, or the bytes of a large one. */
  function ObjectBytes(t: Table, r: Ref): nat {
    if IsSmall(t, r.span) then t[r.span].value.span.slotSize
    else if IsLarge(t, r.span) then t[r.span].value.large.objectBytes
    else 0
  }

  function ObjectCharge(t: Table, r: Ref): nat {
    match VerifyReference(t, r)
    case Verified(h) => if h.external.Some? then h.external.value else 0
    case Rejected(_) => 0
  }

  ghost function BytesOf(t: Table, refs: seq<Ref>): nat {
    if refs == [] then 0 else BytesOf(t, refs[..|refs| - 1]) + ObjectBytes(t, refs[|refs| - 1])
  }

  ghost function ChargeOf(t: Table, refs: seq<Ref>): nat {
    if refs == [] then 0 else ChargeOf(t, refs[..|refs| - 1]) + ObjectCharge(t, refs[|refs| - 1])
  }

  /** Exactly the published objects, each once. */
  ghost predicate Lists(t: Table, refs: seq<Ref>) {
    NoDuplicates(refs) && forall r :: r in refs <==> Published(t, r)
  }

  lemma {:induction false} SameTotals(t: Table, t': Table, refs: seq<Ref>)
    requires forall r | r in refs :: ObjectBytes(t', r) == ObjectBytes(t, r) && ObjectCharge(t', r) == ObjectCharge(t, r)
    ensures BytesOf(t', refs) == BytesOf(t, refs) && ChargeOf(t', refs) == ChargeOf(t, refs)
  {
    hide ObjectBytes, ObjectCharge;
    if refs != [] {
      var rest := refs[..|refs| - 1];
      forall r | r in rest ensures r in refs {}
      SameTotals(t, t', rest);
    }
  }

  // ----- One object fewer -----

  lemma SmallFewer(t: Table, r: Ref) returns (t': Table)
    requires TableSound(t) && IsSmall(t, r.span) && Published(t, r)
    ensures TableSound(t') && OneFewer(t, t', r) && forall q :: ObjectBytes(t', q) == ObjectBytes(t, q)
    ensures Sum(t, EntryObjects) == Sum(t', EntryObjects) + 1
    ensures Sum(t, EntryBytes) == Sum(t', EntryBytes) + ObjectBytes(t, r)
    ensures TotalCharge(t) == TotalCharge(t') + ObjectCharge(t, r)
  {
    hide Has, Remove, SlotForOffset, IsSizeClass, SlotCount, IsFreeList, TotalCharge;
    var s := t[r.span].value.span;
    var slot := SlotOf(s, r).value;
    TableEntry(t, r.span);
    SpanBounds(s);
    Unpublished(s, slot);
    t' := SlotUnpublished(t, r);
    WithdrawalKeeps(t, r, Unpublish(s, slot));
    WithdrawnCharge(t, r);
    SumUpdated(t, r.span, t'[r.span], EntryObjects);
    SumUpdated(t, r.span, t'[r.span], EntryBytes);
    OneSlotLess(s.allocatedSlots, s.slotSize);
  }

  lemma OneSlotLess(n: nat, size: nat)
    requires n > 0
    ensures n * size == (n - 1) * size + size
  {
  }

  lemma LargeFewer(t: Table, r: Ref) returns (t': Table)
    requires TableSound(t) && IsLarge(t, r.span) && Published(t, r)
    ensures TableSound(t') && OneFewer(t, t', r) && forall q :: ObjectBytes(t', q) == ObjectBytes(t, q)
    ensures Sum(t, EntryObjects) == Sum(t', EntryObjects) + 1
    ensures Sum(t, EntryBytes) == Sum(t', EntryBytes) + ObjectBytes(t, r)
    ensures TotalCharge(t) == TotalCharge(t') + ObjectCharge(t, r)
  {
    hide TotalCharge, Sound;
    var l := t[r.span].value.large;
    t' := t[r.span := Some(LargeOwner(Withdrawn(l)))];
    assert r == Ref(r.span, MINIMUM_SLOT_SIZE_BYTES);
    LargeCharges(t, r.span);
    LargeReplaced(t, r.span, Withdrawn(l));
    SumUpdated(t, r.span, t'[r.span], EntryObjects);
    SumUpdated(t, r.span, t'[r.span], EntryBytes);
  }

  // ----- The sums over the table are sums over its objects -----

  lemma {:induction false} NothingWeighs(t: Table)
    requires Sum(t, EntryObjects) == 0
    ensures Sum(t, EntryBytes) == 0 && forall i | 0 <= i < |t| :: EntryObjects(t[i]) == 0
  {
    if t != [] {
      NothingWeighs(t[..|t| - 1]);
      forall i | 0 <= i < |t| ensures EntryObjects(t[i]) == 0 {
        assert i < |t| - 1 ==> t[i] == t[..|t| - 1][i];
      }
    }
  }

  lemma {:induction false} NothingCharged(t: Table, n: nat)
    requires n <= |t| && TableSound(t) && forall r :: !Published(t, r)
    ensures Sum(t[..n], EntryCharge) == 0
  {
    hide Published, EntryCharge;
    if n > 0 {
      NothingCharged(t, n - 1);
      assert t[..n][..n - 1] == t[..n - 1];
      UnchargedEntry(t, n - 1);
    }
  }

  lemma UnchargedEntry(t: Table, id: nat)
    requires id < |t| && TableSound(t) && forall r :: !Published(t, r)
    ensures EntryCharge(t[id]) == 0
  {
    hide Has, SlotForOffset, IsSizeClass, SlotCount, IsFreeList, LiveCharge;
    TableEntry(t, id);
    if IsSmall(t, id) {
      EmptyIffUnpublished(t, id);
      UnchargedSpan(t[id].value.span, |t[id].value.span.headers|);
    } else if IsLarge(t, id) {
      assert !Published(t, Ref(id, MINIMUM_SLOT_SIZE_BYTES));
    }
  }

  lemma {:induction false} UnchargedSpan(s: SmallSpan, n: nat)
    requires n <= |s.headers| && Shaped(s) && s.allocatedSlots == 0
    ensures LiveCharge(s, n) == 0
  {
    hide Has, IsSizeClass, SlotCount, Shaped;
    if n > 0 {
      UnchargedSpan(s, n - 1);
      if Has(s.allocations, n - 1) {
        LiveCounted(s, n - 1);
      }
    }
  }

  lemma {:induction false} SomeWeighs(t: Table) returns (id: nat)
    requires Sum(t, EntryObjects) > 0
    ensures id < |t| && EntryObjects(t[id]) > 0
  {
    hide EntryObjects;
    if EntryObjects(t[|t| - 1]) > 0 {
      id := |t| - 1;
    } else {
      id := SomeWeighs(t[..|t| - 1]);
    }
  }

  lemma SomePublished(t: Table) returns (r: Ref)
    requires TableSound(t) && Sum(t, EntryObjects) > 0
    ensures Published(t, r) && (IsSmall(t, r.span) || IsLarge(t, r.span))
  {
    hide Sound, SlotOf;
    var id := SomeWeighs(t);
    if IsSmall(t, id) {
      CountedOccupied(t, id);
      r :| Published(t, r) && r.span == id;
    } else {
      r := Ref(id, MINIMUM_SLOT_SIZE_BYTES);
    }
  }

  lemma NothingPublished(t: Table, r: Ref)
    requires TableSound(t) && Sum(t, EntryObjects) == 0
    ensures !Published(t, r)
  {
    hide Sound;
    NothingWeighs(t);
    if Published(t, r) && IsSmall(t, r.span) {
      EmptyIffUnpublished(t, r.span);
    }
  }

  /** The list accounts for the whole table. */
  ghost predicate Totals(t: Table, refs: seq<Ref>) {
    && Lists(t, refs) && |refs| == Sum(t, EntryObjects)
    && BytesOf(t, refs) == Sum(t, EntryBytes) && ChargeOf(t, refs) == TotalCharge(t)
  }

  lemma NoTotals(t: Table)
    requires TableSound(t) && Sum(t, EntryObjects) == 0
    ensures Totals(t, [])
  {
    hide Published, TableSound, ObjectBytes, ObjectCharge, EntryObjects, EntryBytes, EntryCharge;
    forall r ensures !Published(t, r) { NothingPublished(t, r); }
    NothingWeighs(t);
    NothingCharged(t, |t|);
    assert t[..|t|] == t;
  }

  lemma OneMoreListed(t: Table, t': Table, refs: seq<Ref>, r: Ref)
    requires OneFewer(t, t', r) && Lists(t', refs)
    ensures Lists(t, refs + [r]) && forall q | q in refs :: ObjectCharge(t', q) == ObjectCharge(t, q)
  {
    hide Published, VerifyReference;
  }

  lemma AppendedTotals(t: Table, refs: seq<Ref>, r: Ref)
    ensures BytesOf(t, refs + [r]) == BytesOf(t, refs) + ObjectBytes(t, r)
    ensures ChargeOf(t, refs + [r]) == ChargeOf(t, refs) + ObjectCharge(t, r)
  {
    hide ObjectBytes, ObjectCharge;
    assert (refs + [r])[..|refs|] == refs;
  }

  lemma OneMoreTotal(t: Table, t': Table, refs: seq<Ref>, r: Ref)
    requires OneFewer(t, t', r) && Totals(t', refs) && forall q :: ObjectBytes(t', q) == ObjectBytes(t, q)
    requires Sum(t, EntryObjects) == Sum(t', EntryObjects) + 1
    requires Sum(t, EntryBytes) == Sum(t', EntryBytes) + ObjectBytes(t, r)
    requires TotalCharge(t) == TotalCharge(t') + ObjectCharge(t, r)
    ensures Totals(t, refs + [r])
  {
    hide OneFewer, Lists, Sum, BytesOf, ChargeOf, TotalCharge, ObjectBytes, ObjectCharge, EntryObjects, EntryBytes;
    OneMoreListed(t, t', refs, r);
    SameTotals(t', t, refs);
    AppendedTotals(t, refs, r);
  }

  /** The three sums are the number, the bytes and the charges of exactly the published objects. */
  lemma {:induction false} TotalsCountPublished(t: Table)
    requires TableSound(t)
    ensures exists refs :: Totals(t, refs)
    decreases Sum(t, EntryObjects)
  {
    hide Published, TableSound, IsSmall, IsLarge, Sum, Totals, OneFewer, TotalCharge, ObjectBytes, ObjectCharge;
    if Sum(t, EntryObjects) == 0 {
      NoTotals(t);
    } else {
      var r := SomePublished(t);
      var t': Table;
      if IsSmall(t, r.span) {
        t' := SmallFewer(t, r);
      } else {
        t' := LargeFewer(t, r);
      }
      TotalsCountPublished(t');
      var rest :| Totals(t', rest);
      OneMoreTotal(t, t', rest, r);
    }
  }
}
