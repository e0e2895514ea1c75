/** Collections that abort while marking and are tried again: nothing is lost and nothing is queued twice. */
module GcRetries {
  import opened Options
  import opened GcObjects
  import opened GcLiveness
  import opened GcWeakPhases
  import opened GcTricolor
  import opened GcGenerations
  import opened GcCollections

  // ----- How often a record is queued -----

  /** The registrations of `o` with a dead target that hold `held`. */
  ghost function Due(dead: set<Ref>, o: Object, held: Option<Ref>): set<int> {
    set i | 0 <= i < |o| && DeadRegistration(dead, o[i]) && o[i].held == held
  }

  lemma DueExtended(dead: set<Ref>, o: Object, s: Slot, held: Option<Ref>)
    ensures Due(dead, o + [s], held)
            == Due(dead, o, held) + if DeadRegistration(dead, s) && s.held == held then {|o|} else {}
    ensures |o| !in Due(dead, o, held)
  {
    forall i | 0 <= i < |o| ensures (o + [s])[i] == o[i] {
    }
    assert (o + [s])[|o|] == s;
  }

  lemma DueStep(dead: set<Ref>, o: Object, s: Slot, held: Option<Ref>)
    ensures |Due(dead, o + [s], held)| == |Due(dead, o, held)| + if DeadRegistration(dead, s) && s.held == held then 1 else 0
  {
    hide Due;
    DueExtended(dead, o, s, held);
  }

  lemma SlotCount(dead: set<Ref>, x: Ref, s: Slot, rec: Record)
    ensures multiset(SlotRecords(dead, x, s))[rec]
            == if rec.owner == x && DeadRegistration(dead, s) && s.held == rec.held then 1 else 0
  {
    if DeadRegistration(dead, s) {
      assert SlotRecords(dead, x, s) == [Record(x, s.held)];
    }
  }

  lemma {:induction false} ObjectCount(dead: set<Ref>, x: Ref, o: Object, rec: Record)
    ensures multiset(ObjectRecords(dead, x, o))[rec] == if rec.owner == x then |Due(dead, o, rec.held)| else 0
  {
    hide Due, SlotRecords, DeadRegistration;
    if o == [] {
      NoneDue(dead, rec.held);
    } else {
      var init, last := o[..|o| - 1], o[|o| - 1];
      ObjectCount(dead, x, init, rec);
      SlotCount(dead, x, last, rec);
      DueStep(dead, init, last, rec.held);
      assert o == init + [last];
    }
  }

  lemma NoneDue(dead: set<Ref>, held: Option<Ref>)
    ensures |Due(dead, [], held)| == 0
  {
    assert Due(dead, [], held) == {};
  }

  lemma {:induction false} OwnersCount(dead: set<Ref>, objects: map<Ref, Object>, owners: seq<Ref>, rec: Record)
    requires NoDuplicates(owners) && forall x | x in owners :: x in objects
    ensures multiset(OwnerRecords(dead, objects, owners))[rec]
            == if rec.owner in owners then |Due(dead, objects[rec.owner], rec.held)| else 0
  {
    hide Due, ObjectRecords;
    if owners != [] {
      var init, last := owners[..|owners| - 1], owners[|owners| - 1];
      OwnersCount(dead, objects, init, rec);
      ObjectCount(dead, last, objects[last], rec);
      assert owners == init + [last];
    }
  }

  /** How often a complete pair of weak phases queues `rec`: once per registration, in whatever order it meets the owners. */
  ghost function DueCount(p: Problem, marks: set<Ref>, rec: Record): nat {
    if rec.owner in p.objects && (rec.owner in marks || rec.owner in p.sources)
    then |Due(p.scope - marks, p.objects[rec.owner], rec.held)| else 0
  }

  lemma NothingDue(dead: set<Ref>, o: Object, held: Option<Ref>)
    requires !AnyFinalization(o)
    ensures Due(dead, o, held) == {}
  {
    assert forall i | 0 <= i < |o| :: !FinalizationActive(o[i]);
  }

  lemma WorklistCount(p: Problem, marks: set<Ref>, owners: seq<Ref>, rec: Record)
    requires OwnerWorklist(p, marks, owners)
    ensures multiset(OwnerRecords(p.scope - marks, p.objects, owners))[rec] == DueCount(p, marks, rec)
  {
    hide AnyWeak, AnyEphemeron, AnyFinalization, Due;
    OwnersCount(p.scope - marks, p.objects, owners, rec);
    if rec.owner in p.objects && !IsWeakOwner(p.objects[rec.owner]) {
      NothingDue(p.scope - marks, p.objects[rec.owner], rec.held);
    }
  }

  // ----- What a stop leaves -----

  /** The slot's own condition for being emptied: a dead target or key, or an ephemeron without key. */
  predicate DeadGuard(dead: set<Ref>, s: Slot) {
    match s
    case Strong(_) => false
    case Weak(t) => t.Some? && t.value in dead
    case Ephemeron(k, _) => k.None? || k.value in dead
    case Finalization(t, _) => t.Some? && t.value in dead
  }

  predicate PartlySlot(dead: set<Ref>, s': Slot, s: Slot) { s' == s || (DeadGuard(dead, s) && s' == Blank(s)) }

  lemma AfterClear(dead: set<Ref>, s: Slot)
    requires !Keyless(s)
    ensures PartlySlot(dead, ClearSlot(dead, s), s)
    ensures PartlySlot(dead, FinalizeSlot(dead, ClearSlot(dead, s)), s)
    ensures DeadRegistration(dead, ClearSlot(dead, s)) <==> DeadRegistration(dead, s)
    ensures DeadRegistration(dead, s) ==> ClearSlot(dead, s) == s
    ensures !DeadRegistration(dead, FinalizeSlot(dead, ClearSlot(dead, s)))
  {
  }

  /** Clearing leaves the registrations, so what is due stays due. */
  lemma ClearedDue(dead: set<Ref>, o: Object, k: nat, held: Option<Ref>)
    requires k <= |o|
    ensures Due(dead, PartlyCleared(dead, o, k), held) == Due(dead, o, held)
  {
    forall i | 0 <= i < |o|
      ensures DeadRegistration(dead, PartlyCleared(dead, o, k)[i]) <==> DeadRegistration(dead, o[i])
      ensures DeadRegistration(dead, o[i]) ==> PartlyCleared(dead, o, k)[i] == o[i]
    {
    }
  }

  /** What the first `k` slots have queued is no longer due; the rest is. */
  lemma {:induction false} FinalizedDue(dead: set<Ref>, o: Object, k: nat, held: Option<Ref>)
    requires k <= |o|
    ensures |Due(dead, PartlyFinalized(dead, o, k), held)| + |Due(dead, o[..k], held)| == |Due(dead, o, held)|
  {
    var before, after := Due(dead, o[..k], held), Due(dead, PartlyFinalized(dead, o, k), held);
    forall i | 0 <= i < |o| ensures i in Due(dead, o, held) <==> i in before || i in after {
      if i < k {
        assert PartlyFinalized(dead, o, k)[i] == FinalizeSlot(dead, o[i]) && o[..k][i] == o[i];
      } else {
        assert PartlyFinalized(dead, o, k)[i] == o[i];
      }
    }
    assert Due(dead, o, held) == before + after;
    assert before !! after;
  }

  ghost predicate PartlyObject(dead: set<Ref>, o': Object, o: Object) {
    |o'| == |o| && forall i | 0 <= i < |o| :: PartlySlot(dead, o'[i], o[i])
  }

  lemma PartlyClearedSlots(dead: set<Ref>, o: Object, k: nat)
    requires k <= |o| && Inert(o)
    ensures PartlyObject(dead, PartlyCleared(dead, o, k), o)
  {
    forall i | 0 <= i < |o| ensures PartlySlot(dead, PartlyCleared(dead, o, k)[i], o[i]) {
      AfterClear(dead, o[i]);
    }
  }

  lemma PartlyFinalizedSlots(dead: set<Ref>, o: Object, k: nat)
    requires k <= |o| && Inert(o)
    ensures PartlyObject(dead, PartlyFinalized(dead, ClearObject(dead, o), k), o)
  {
    forall i | 0 <= i < |o| ensures PartlySlot(dead, PartlyFinalized(dead, ClearObject(dead, o), k)[i], o[i]) {
      AfterClear(dead, o[i]);
    }
  }

  lemma ClearingObject(p: Problem, dead: set<Ref>, owners: seq<Ref>, objects: map<Ref, Object>, records: seq<Record>,
                       j: nat, k: nat, r: Ref)
    requires AllInert(p.objects) && ClearingStopped(p, dead, owners, objects, records, j, k) && r in p.objects
    ensures objects.Keys == p.objects.Keys
    ensures PartlyObject(dead, objects[r], p.objects[r]) && (objects[r] != p.objects[r] ==> r in owners)
    ensures forall held :: |Due(dead, objects[r], held)| == |Due(dead, p.objects[r], held)|
  {
    hide Due, PartlyCleared, ClearObject, PartlyObject, DeadRegistration;
    var o := p.objects[r];
    var n := if r == owners[j] then k else if r in owners[..j] then |o| else 0;
    PartlyClearedEnds(dead, o);
    assert objects[r] == PartlyCleared(dead, o, n);
    PartlyClearedSlots(dead, o, n);
    forall held ensures |Due(dead, objects[r], held)| == |Due(dead, o, held)| {
      ClearedDue(dead, o, n, held);
    }
  }

  lemma QueueingObject(p: Problem, dead: set<Ref>, owners: seq<Ref>, objects: map<Ref, Object>, records: seq<Record>,
                       j: nat, k: nat, r: Ref)
    requires AllInert(p.objects) && NoDuplicates(owners) && QueueingStopped(p, dead, owners, objects, records, j, k) && r in p.objects
    ensures objects.Keys == p.objects.Keys
    ensures PartlyObject(dead, objects[r], p.objects[r]) && (objects[r] != p.objects[r] ==> r in owners)
    ensures forall held :: multiset(records)[Record(r, held)] + |Due(dead, objects[r], held)| == |Due(dead, p.objects[r], held)|
  {
    hide Due, PartlyFinalized, ClearObject, FinalizeObject, PartlyObject, DeadRegistration, ObjectRecords, OwnerRecords;
    var o, c := p.objects[r], ClearObject(dead, p.objects[r]);
    assert owners[j] !in owners[..j];
    PartlyFinalizedEnds(dead, r, c);
    var n := if r == owners[j] then k else if r in owners[..j] then |o| else 0;
    if r in owners {
      assert objects[r] == PartlyFinalized(dead, c, n);
      PartlyFinalizedSlots(dead, o, n);
    } else {
      PartlyClearedSlots(dead, o, 0);
      PartlyClearedEnds(dead, o);
    }
    forall held ensures multiset(records)[Record(r, held)] + |Due(dead, objects[r], held)| == |Due(dead, o, held)| {
      var x, rec := owners[j], Record(r, held);
      OwnersCount(dead, p.objects, owners[..j], rec);
      ObjectCount(dead, x, ClearObject(dead, p.objects[x])[..k], rec);
      PartlyClearedEnds(dead, o);
      ClearedDue(dead, o, |o|, held);
      if r in owners {
        FinalizedDue(dead, c, n, held);
        assert c[..|o|] == c;
        NoneDue(dead, held);
        assert c[..0] == [];
      }
    }
  }

  ghost predicate LiveOwner(p: Problem, marks: set<Ref>, x: Ref) { x in p.objects && (x in marks || x in p.sources) }

  /** Each slot of a live object is as it was or has been emptied for cause; a registration is queued or still due. */
  ghost predicate PartlyDone(p: Problem, marks: set<Ref>, objects: map<Ref, Object>, records: seq<Record>) {
    && objects.Keys == p.objects.Keys
    && (forall r | r in objects :: PartlyObject(p.scope - marks, objects[r], p.objects[r]))
    && (forall r | r in objects && objects[r] != p.objects[r] :: LiveOwner(p, marks, r))
    && (forall rec | rec in records :: LiveOwner(p, marks, rec.owner))
    && (forall r, held | LiveOwner(p, marks, r) ::
          multiset(records)[Record(r, held)] + |Due(p.scope - marks, objects[r], held)| == |Due(p.scope - marks, p.objects[r], held)|)
  }

  lemma QueueingRecords(p: Problem, dead: set<Ref>, owners: seq<Ref>, objects: map<Ref, Object>, records: seq<Record>,
                        j: nat, k: nat, rec: Record)
    requires NoDuplicates(owners) && QueueingStopped(p, dead, owners, objects, records, j, k) && rec in records
    ensures rec.owner in owners
  {
    hide Due, ClearObject, ObjectRecords, OwnerRecords;
    var x := owners[j];
    OwnersCount(dead, p.objects, owners[..j], rec);
    ObjectCount(dead, x, ClearObject(dead, p.objects[x])[..k], rec);
    assert multiset(records)[rec] > 0;
  }

  lemma ClearingIsPartly(p: Problem, marks: set<Ref>, owners: seq<Ref>, objects: map<Ref, Object>, records: seq<Record>,
                         j: nat, k: nat)
    requires AllInert(p.objects) && OwnerWorklist(p, marks, owners)
    requires ClearingStopped(p, p.scope - marks, owners, objects, records, j, k)
    ensures PartlyDone(p, marks, objects, records)
  {
    hide AllInert, PartlyObject, Due, IsWeakOwner, Cleared, PartlyCleared;
    var dead := p.scope - marks;
    ClearingObject(p, dead, owners, objects, records, j, k, owners[j]);
    forall r | r in p.objects
      ensures PartlyObject(dead, objects[r], p.objects[r]) && (objects[r] != p.objects[r] ==> LiveOwner(p, marks, r))
      ensures forall held :: |Due(dead, objects[r], held)| == |Due(dead, p.objects[r], held)|
    {
      ClearingObject(p, dead, owners, objects, records, j, k, r);
    }
  }

  lemma QueueingIsPartly(p: Problem, marks: set<Ref>, owners: seq<Ref>, objects: map<Ref, Object>, records: seq<Record>,
                         j: nat, k: nat)
    requires AllInert(p.objects) && OwnerWorklist(p, marks, owners)
    requires QueueingStopped(p, p.scope - marks, owners, objects, records, j, k)
    ensures PartlyDone(p, marks, objects, records)
  {
    hide AllInert, PartlyObject, Due, IsWeakOwner, QueueingStopped;
    var dead := p.scope - marks;
    forall rec | rec in records ensures LiveOwner(p, marks, rec.owner) {
      QueueingRecords(p, dead, owners, objects, records, j, k, rec);
    }
    QueueingKeys(p, dead, owners, objects, records, j, k);
    forall r | r in p.objects
      ensures PartlyObject(dead, objects[r], p.objects[r]) && (objects[r] != p.objects[r] ==> LiveOwner(p, marks, r))
      ensures forall held :: multiset(records)[Record(r, held)] + |Due(dead, objects[r], held)| == |Due(dead, p.objects[r], held)|
    {
      QueueingObject(p, dead, owners, objects, records, j, k, r);
    }
  }

  lemma QueueingKeys(p: Problem, dead: set<Ref>, owners: seq<Ref>, objects: map<Ref, Object>, records: seq<Record>, j: nat, k: nat)
    requires QueueingStopped(p, dead, owners, objects, records, j, k)
    ensures objects.Keys == p.objects.Keys
  {
  }

  lemma StoppedIsPartly(p: Problem, marks: set<Ref>, owners: seq<Ref>, objects: map<Ref, Object>, records: seq<Record>)
    requires AllInert(p.objects) && WeakPhasesStopped(p, marks, owners, objects, records)
    ensures PartlyDone(p, marks, objects, records)
  {
    hide AllInert, LeastClosed, OwnerWorklist, ClearingStopped, QueueingStopped, PartlyDone;
    var dead := p.scope - marks;
    if j, k :| ClearingStopped(p, dead, owners, objects, records, j, k) {
      ClearingIsPartly(p, marks, owners, objects, records, j, k);
    } else {
      var j, k :| QueueingStopped(p, dead, owners, objects, records, j, k);
      QueueingIsPartly(p, marks, owners, objects, records, j, k);
    }
  }

  // ----- Trying again -----

  /** The same collection, started from what the stopped one has left. */
  ghost function Resumed(p: Problem, objects: map<Ref, Object>, records: seq<Record>): Problem {
    p.(objects := objects, seeds := p.seeds + RecordRefs(records))
  }

  /** The records already queued name live objects only, and each emptied registration is among them. */
  lemma HeldMarked(p: Problem, marks: set<Ref>, objects: map<Ref, Object>, records: seq<Record>, r: Ref, held: Option<Ref>)
    requires Closed(p, marks) && PartlyDone(p, marks, objects, records) && Record(r, held) in records
    ensures LiveOwner(p, marks, r) && (held.Some? && held.value in p.scope ==> held.value in marks)
  {
    hide PartlyObject, EphemeronClosed;
    assert multiset(records)[Record(r, held)] > 0;
    assert LiveOwner(p, marks, Record(r, held).owner);
    var d := Due(p.scope - marks, p.objects[r], held);
    assert d != {};
    var n :| n in d;
    assert Included(p, marks, StrongTarget(p.objects[r][n]));
  }

  lemma PartlyRecords(p: Problem, marks: set<Ref>, objects: map<Ref, Object>, records: seq<Record>)
    requires WellPosed(p) && Closed(p, marks) && PartlyDone(p, marks, objects, records)
    ensures RecordRefs(records) * p.scope <= marks
  {
    hide Closed, PartlyDone, IsWeakOwner;
    forall q | q in RecordRefs(records) && q in p.scope ensures q in marks {
      var i :| 0 <= i < |records| && q in {records[i].owner} + OptionRefs(records[i].held);
      assert Record(records[i].owner, records[i].held) == records[i];
      HeldMarked(p, marks, objects, records, records[i].owner, records[i].held);
    }
  }

  lemma PartlyClosed(p: Problem, marks: set<Ref>, objects: map<Ref, Object>, records: seq<Record>)
    requires WellPosed(p) && Closed(p, marks) && PartlyDone(p, marks, objects, records)
    ensures Closed(Resumed(p, objects, records), marks)
  {
    hide RecordRefs, Due;
    var p' := Resumed(p, objects, records);
    PartlyRecords(p, marks, objects, records);
    forall r, i | r in objects && (r in marks || r in p.sources) && 0 <= i < |objects[r]|
      ensures Included(p', marks, StrongTarget(objects[r][i])) && EphemeronSlotClosed(p', marks, objects[r][i])
    {
      assert PartlySlot(p.scope - marks, objects[r][i], p.objects[r][i]);
      assert Included(p, marks, StrongTarget(p.objects[r][i])) && EphemeronSlotClosed(p, marks, p.objects[r][i]);
    }
  }

  /** The value of an emptied registration stays a root through its record. */
  lemma HeldQueued(p: Problem, marks: set<Ref>, objects: map<Ref, Object>, records: seq<Record>, r: Ref, i: nat)
    requires PartlyDone(p, marks, objects, records) && LiveOwner(p, marks, r) && i < |p.objects[r]|
    requires p.objects[r][i].Finalization? && objects[r][i] != p.objects[r][i]
    ensures OptionRefs(p.objects[r][i].held) <= RecordRefs(records)
  {
    var dead, held := p.scope - marks, p.objects[r][i].held;
    var before, after := Due(dead, p.objects[r], held), Due(dead, objects[r], held);
    forall n | n in after ensures n in before && n != i {
      assert PartlySlot(dead, objects[r][n], p.objects[r][n]);
    }
    assert PartlySlot(dead, objects[r][i], p.objects[r][i]);
    assert i in before && after <= before - {i};
    SubsetSize(after, before - {i});
    assert multiset(records)[Record(r, held)] > 0;
    var m :| 0 <= m < |records| && records[m] == Record(r, held);
    forall q | q in OptionRefs(held) ensures q in RecordRefs(records) {
      assert q in {records[m].owner} + OptionRefs(records[m].held);
    }
  }

  lemma PartlyBelow(p: Problem, marks: set<Ref>, objects: map<Ref, Object>, records: seq<Record>, t: set<Ref>)
    requires LeastClosed(p, marks) && PartlyDone(p, marks, objects, records) && Closed(Resumed(p, objects, records), t)
    ensures marks <= t
  {
    hide RecordRefs, Due;
    var p', u := Resumed(p, objects, records), marks * t;
    forall r, i | r in p.objects && (r in u || r in p.sources) && 0 <= i < |p.objects[r]|
      ensures Included(p, u, StrongTarget(p.objects[r][i])) && EphemeronSlotClosed(p, u, p.objects[r][i])
    {
      var slot := p.objects[r][i];
      assert PartlySlot(p.scope - marks, objects[r][i], slot);
      assert Included(p, marks, StrongTarget(slot)) && EphemeronSlotClosed(p, marks, slot);
      assert Included(p', t, StrongTarget(objects[r][i])) && EphemeronSlotClosed(p', t, objects[r][i]);
      if slot.Finalization? && objects[r][i] != slot {
        HeldQueued(p, marks, objects, records, r, i);
      }
    }
    assert Closed(p, u);
  }

  /** Both attempts mark the same objects. */
  lemma RetriedMarks(p: Problem, marks: set<Ref>, objects: map<Ref, Object>, records: seq<Record>)
    requires WellPosed(p) && LeastClosed(p, marks) && PartlyDone(p, marks, objects, records)
    ensures LeastClosed(Resumed(p, objects, records), marks)
  {
    hide Closed, PartlyDone;
    PartlyClosed(p, marks, objects, records);
    forall t: set<Ref> | Closed(Resumed(p, objects, records), t) ensures marks <= t {
      PartlyBelow(p, marks, objects, records, t);
    }
  }

  lemma RetriedSlot(dead: set<Ref>, s': Slot, s: Slot)
    requires PartlySlot(dead, s', s)
    ensures FinalizeSlot(dead, ClearSlot(dead, s')) == FinalizeSlot(dead, ClearSlot(dead, s))
  {
  }

  /** A slot without key or active item is what both phases leave alone. */
  lemma IdleObject(dead: set<Ref>, o: Object)
    requires Inert(o) && !IsWeakOwner(o)
    ensures FinalizeObject(dead, ClearObject(dead, o)) == o
  {
    forall i | 0 <= i < |o| ensures FinalizeSlot(dead, ClearSlot(dead, o[i])) == o[i] {
      assert !WeakActive(o[i]) && !EphemeronActive(o[i]) && !FinalizationActive(o[i]) && !Keyless(o[i]);
    }
  }

  lemma RetriedObject(dead: set<Ref>, o': Object, o: Object)
    requires PartlyObject(dead, o', o)
    ensures FinalizeObject(dead, ClearObject(dead, o')) == FinalizeObject(dead, ClearObject(dead, o))
  {
    forall i | 0 <= i < |o|
      ensures FinalizeSlot(dead, ClearSlot(dead, o'[i])) == FinalizeSlot(dead, ClearSlot(dead, o[i]))
    {
      RetriedSlot(dead, o'[i], o[i]);
    }
  }

  lemma PartlyInert(p: Problem, marks: set<Ref>, objects: map<Ref, Object>, records: seq<Record>)
    requires AllInert(p.objects) && PartlyDone(p, marks, objects, records)
    ensures AllInert(objects)
  {
    forall r, i | r in objects && 0 <= i < |objects[r]| ensures !Keyless(objects[r][i]) {
      assert PartlySlot(p.scope - marks, objects[r][i], p.objects[r][i]) && Inert(p.objects[r]);
    }
  }

  /** Both attempts end with the same payloads. */
  lemma RetriedPayloads(p: Problem, marks: set<Ref>, objects: map<Ref, Object>, records: seq<Record>)
    requires AllInert(p.objects) && PartlyDone(p, marks, objects, records)
    ensures AfterWeakPhases(Resumed(p, objects, records), marks) == AfterWeakPhases(p, marks)
  {
    hide IsWeakOwner, FinalizeObject, ClearObject, PartlyObject, Inert, Due;
    var dead, p' := p.scope - marks, Resumed(p, objects, records);
    PartlyInert(p, marks, objects, records);
    forall r | r in p.objects ensures AfterWeakPhases(p', marks)[r] == AfterWeakPhases(p, marks)[r] {
      if LiveOwner(p, marks, r) {
        RetriedObject(dead, objects[r], p.objects[r]);
        if !IsWeakOwner(objects[r]) { IdleObject(dead, objects[r]); }
        if !IsWeakOwner(p.objects[r]) { IdleObject(dead, p.objects[r]); }
      }
    }
  }

  /** Together both attempts queue each record as often as one uninterrupted attempt. */
  lemma RetriedRecords(p: Problem, marks: set<Ref>, objects: map<Ref, Object>, records: seq<Record>,
                       owners: seq<Ref>, later: seq<Ref>)
    requires PartlyDone(p, marks, objects, records)
    requires OwnerWorklist(p, marks, owners) && OwnerWorklist(Resumed(p, objects, records), marks, later)
    ensures multiset(records + OwnerRecords(p.scope - marks, objects, later)) == multiset(OwnerRecords(p.scope - marks, p.objects, owners))
  {
    hide IsWeakOwner, OwnerRecords, Due, PartlyObject;
    var p', dead := Resumed(p, objects, records), p.scope - marks;
    forall rec: Record
      ensures multiset(records)[rec] + multiset(OwnerRecords(dead, objects, later))[rec] == multiset(OwnerRecords(dead, p.objects, owners))[rec]
    {
      WorklistCount(p, marks, owners, rec);
      WorklistCount(p', marks, later, rec);
      assert rec == Record(rec.owner, rec.held);
      if multiset(records)[rec] > 0 {
        assert rec in records;
      }
    }
  }

  // ----- Whole heaps -----

  /** What a collection of `s` that completes will come to: its marks, its payloads and its cleanup queue. */
  ghost predicate Promises(s: State, p: Problem, marks: set<Ref>, objects: map<Ref, Object>, queue: multiset<Record>) {
    && LeastClosed(p, marks) && AfterWeakPhases(p, marks) == objects
    && forall rec :: multiset(s.pending)[rec] + DueCount(p, marks, rec) == queue[rec]
  }

  lemma CompletedPromises(s: State, p: Problem, marks: set<Ref>, owners: seq<Ref>)
    requires p.objects == s.objects && LeastClosed(p, marks) && OwnerWorklist(p, marks, owners)
    ensures Promises(s, p, marks, AfterWeakPhases(p, marks), multiset(s.pending + OwnerRecords(p.scope - marks, s.objects, owners)))
  {
    hide LeastClosed, IsWeakOwner, OwnerRecords, DueCount, AfterWeakPhases;
    forall rec: Record ensures
      multiset(s.pending)[rec] + DueCount(p, marks, rec) == multiset(s.pending + OwnerRecords(p.scope - marks, s.objects, owners))[rec]
    {
      WorklistCount(p, marks, owners, rec);
    }
  }

  lemma PromisesUnique(s: State, p: Problem, a: set<Ref>, b: set<Ref>, x: map<Ref, Object>, y: map<Ref, Object>,
                       q: multiset<Record>, r: multiset<Record>)
    requires Promises(s, p, a, x, q) && Promises(s, p, b, y, r)
    ensures a == b && x == y && q == r
  {
    hide AfterWeakPhases, DueCount, Closed;
    LeastClosedUnique(p, a, b);
    forall rec: Record ensures q[rec] == r[rec] {
      assert multiset(s.pending)[rec] + DueCount(p, a, rec) == q[rec];
    }
  }

  /** What both kinds of collection need of the heap they start from. */
  ghost predicate Ready(s: State, p: Problem) {
    p.objects == s.objects && WellPosed(p) && AllInert(s.objects)
  }

  /** A mark that aborts changes nothing about where the collection will end. */
  lemma AbortKeepsPromise(s: State, t: State, p: Problem, p': Problem, marks: set<Ref>, objects: map<Ref, Object>, queue: multiset<Record>)
    requires Ready(s, p) && MarkAborted(s, t, p) && p' == Resumed(p, t.objects, t.pending[|s.pending|..])
    requires Promises(s, p, marks, objects, queue)
    ensures Promises(t, p', marks, objects, queue)
  {
    hide LeastClosed, AfterWeakPhases, DueCount, WellPosed, AllInert, PartlyDone, WeakPhasesStopped, AllShrunk, Resumed;
    var records := t.pending[|s.pending|..];
    if t == s {
      assert records == [];
      NothingResumed(p);
    } else {
      var found, owners :| WeakPhasesStopped(p, found, owners, t.objects, records);
      StoppedMarks(p, found, owners, t.objects, records);
      LeastClosedUnique(p, found, marks);
      StoppedIsPartly(p, marks, owners, t.objects, records);
      RetriedMarks(p, marks, t.objects, records);
      RetriedPayloads(p, marks, t.objects, records);
      assert t.pending == s.pending + records;
      forall rec: Record ensures multiset(t.pending)[rec] + DueCount(p', marks, rec) == queue[rec] {
        PartlyCount(p, marks, t.objects, records, rec);
      }
    }
  }

  lemma NothingResumed(p: Problem)
    ensures Resumed(p, p.objects, []) == p
  {
    assert RecordRefs([]) == {};
  }

  lemma StoppedMarks(p: Problem, marks: set<Ref>, owners: seq<Ref>, objects: map<Ref, Object>, records: seq<Record>)
    requires WeakPhasesStopped(p, marks, owners, objects, records)
    ensures LeastClosed(p, marks)
  {
  }

  lemma PartlyCount(p: Problem, marks: set<Ref>, objects: map<Ref, Object>, records: seq<Record>, rec: Record)
    requires PartlyDone(p, marks, objects, records)
    ensures multiset(records)[rec] + DueCount(Resumed(p, objects, records), marks, rec) == DueCount(p, marks, rec)
  {
    hide Due, PartlyObject;
    assert rec == Record(rec.owner, rec.held);
    assert multiset(records)[rec] > 0 ==> rec in records;
  }

  lemma MinorResumed(s: State, t: State)
    requires Thinned(s, t)
    ensures MinorProblem(t) == Resumed(MinorProblem(s), t.objects, t.pending[|s.pending|..])
  {
    hide ObjectShrunk, RecordRefs;
    SeedsGrow(s, t);
    assert t.objects.Keys == s.objects.Keys;
  }

  lemma MajorResumed(s: State, t: State)
    requires Thinned(s, t)
    ensures MajorProblem(t) == Resumed(MajorProblem(s), t.objects, t.pending[|s.pending|..])
  {
    hide RecordRefs;
    SeedsGrow(s, t);
  }

  lemma SeedsGrow(s: State, t: State)
    requires Thinned(s, t)
    ensures Seeds(t) == Seeds(s) + RecordRefs(t.pending[|s.pending|..])
  {
    assert t.pending == s.pending + t.pending[|s.pending|..];
    RecordRefsAppend(s.pending, t.pending[|s.pending|..]);
  }

  lemma ValidReady(s: State)
    requires Valid(s)
    ensures Ready(s, MinorProblem(s)) && Ready(s, MajorProblem(s))
  {
    hide NoDangling, BarrierContract, AllInert;
  }

  /** Any number of attempts that abort while marking, one after the other. */
  ghost predicate Attempts(tries: seq<State>, minor: bool) {
    && tries != [] && Valid(tries[0])
    && forall i | 0 <= i < |tries| - 1 :: MarkAborted(tries[i], tries[i + 1], ProblemOf(tries[i], minor))
  }

  ghost function ProblemOf(s: State, minor: bool): Problem { if minor then MinorProblem(s) else MajorProblem(s) }

  lemma {:induction false} AttemptsKeepPromise(tries: seq<State>, minor: bool, n: nat,
                                               marks: set<Ref>, objects: map<Ref, Object>, queue: multiset<Record>)
    requires Attempts(tries, minor) && n < |tries| && Promises(tries[0], ProblemOf(tries[0], minor), marks, objects, queue)
    ensures Valid(tries[n]) && Promises(tries[n], ProblemOf(tries[n], minor), marks, objects, queue)
    ensures tries[n] == tries[0].(objects := tries[n].objects, pending := tries[n].pending)
  {
    hide Promises, Valid, AllShrunk, MinorProblem, MajorProblem, WeakPhasesStopped;
    if n > 0 {
      AttemptsKeepPromise(tries, minor, n - 1, marks, objects, queue);
      var s, t := tries[n - 1], tries[n];
      assert MarkAborted(s, t, ProblemOf(s, minor));
      ValidReady(s);
      MinorResumed(s, t);
      MajorResumed(s, t);
      AbortKeepsPromise(s, t, ProblemOf(s, minor), ProblemOf(t, minor), marks, objects, queue);
      AbortKeepsValid(s, t);
    }
  }

  /** However often a major collection aborts while marking, the one that completes ends where an uninterrupted
      one would have: the same heap, and every record queued as often. */
  lemma RetriedMajor(tries: seq<State>, u: State, v: State, a: set<Ref>, b: set<Ref>, owners: seq<Ref>, later: seq<Ref>)
    requires Attempts(tries, false)
    requires MajorCollected(tries[0], u, a, owners) && MajorCollected(tries[|tries| - 1], v, b, later)
    ensures a == b && v == u.(pending := v.pending) && multiset(v.pending) == multiset(u.pending)
  {
    hide Valid, LeastClosed, OwnerWorklist, AfterWeakPhases, OwnerRecords, Promises, LiveIn, MarkAborted;
    var s, t := tries[0], tries[|tries| - 1];
    var p, p' := MajorProblem(s), MajorProblem(t);
    CompletedPromises(s, p, a, owners);
    AttemptsKeepPromise(tries, false, |tries| - 1, a, AfterWeakPhases(p, a), multiset(u.pending));
    CompletedPromises(t, p', b, later);
    PromisesUnique(t, p', a, b, AfterWeakPhases(p, a), AfterWeakPhases(p', b), multiset(u.pending), multiset(v.pending));
    PromisedKeys(s, t, p, p', a);
  }

  lemma PromisedKeys(s: State, t: State, p: Problem, p': Problem, marks: set<Ref>)
    requires p.objects == s.objects && p'.objects == t.objects && AfterWeakPhases(p, marks) == AfterWeakPhases(p', marks)
    ensures s.objects.Keys == t.objects.Keys
  {
    assert AfterWeakPhases(p, marks).Keys == s.objects.Keys && AfterWeakPhases(p', marks).Keys == t.objects.Keys;
  }

  /** The same of minor collections, up to the choice of pooling or releasing an emptied span. */
  lemma RetriedMinor(tries: seq<State>, u: State, v: State, a: set<Ref>, b: set<Ref>, owners: seq<Ref>, later: seq<Ref>)
    requires Attempts(tries, true)
    requires MinorCollected(tries[0], u, a, owners) && MinorCollected(tries[|tries| - 1], v, b, later)
    ensures a == b && v.objects == u.objects && v.roots == u.roots && multiset(v.pending) == multiset(u.pending)
    ensures forall id | id in tries[0].spans && (!IsYoungSpan(tries[0].spans, id) || LiveIn(a, id) != {}) ::
      id in u.spans && id in v.spans && v.spans[id] == u.spans[id]
  {
    hide Valid, LeastClosed, OwnerWorklist, AfterWeakPhases, OwnerRecords, Promises, LiveIn, MarkAborted, PreparedSpans,
      RebuiltSpans, SweptSpans, Without;
    var s, t := tries[0], tries[|tries| - 1];
    var p, p' := MinorProblem(s), MinorProblem(t);
    CompletedPromises(s, p, a, owners);
    AttemptsKeepPromise(tries, true, |tries| - 1, a, AfterWeakPhases(p, a), multiset(u.pending));
    CompletedPromises(t, p', b, later);
    PromisesUnique(t, p', a, b, AfterWeakPhases(p, a), AfterWeakPhases(p', b), multiset(u.pending), multiset(v.pending));
    PromisedKeys(s, t, p, p', a);
    SameYoungObjects(s, t);
    var objects := AfterWeakPhases(p, a);
    PreparationKeepsSpace(objects, s, a);
    SameSweep(PreparedSpans(objects, RebuiltSpans(objects, s.spans, s.remembered), s.young, a), u.spans, v.spans, s.young, a);
  }

  lemma SameYoungObjects(s: State, t: State)
    requires s.objects.Keys == t.objects.Keys && s.spans == t.spans
    ensures YoungObjects(s) == YoungObjects(t)
  {
  }

  /** Sweeping is determined up to the pooling of emptied spans. */
  lemma SameSweep(prepared: map<nat, Span>, u: map<nat, Span>, v: map<nat, Span>, chain: seq<nat>, marks: set<Ref>)
    requires SweptSpans(prepared, u, chain, marks) && SweptSpans(prepared, v, chain, marks)
    ensures forall id | id in prepared && (!IsYoungSpan(prepared, id) || LiveIn(marks, id) != {}) ::
      id in u && id in v && v[id] == u[id]
  {
    hide LiveIn;
  }
}
