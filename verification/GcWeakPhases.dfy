/** The weak phases that follow marking: what they clear, what they queue, and what survivors may still name. */
module GcWeakPhases {
  import opened Options
  import opened GcObjects
  import opened GcLiveness

  /** Flags recorded while an object is traced strongly. */
  datatype WeakOwner = WeakOwner(
    reference: Ref, hasWeak: bool, hasEphemeron: bool, hasFinalization: bool)

  predicate WeakActive(s: Slot) { s.Weak? && s.weak.Some? }
  predicate EphemeronActive(s: Slot) { s.Ephemeron? && s.key.Some? }
  predicate FinalizationActive(s: Slot) { s.Finalization? && s.registered.Some? }

  ghost predicate AnyWeak(o: Object) { exists i :: 0 <= i < |o| && WeakActive(o[i]) }
  ghost predicate AnyEphemeron(o: Object) { exists i :: 0 <= i < |o| && EphemeronActive(o[i]) }
  ghost predicate AnyFinalization(o: Object) { exists i :: 0 <= i < |o| && FinalizationActive(o[i]) }

  /** Only objects with an active weak edge, ephemeron key or registration enter the weak phases. */
  ghost predicate IsWeakOwner(o: Object) { AnyWeak(o) || AnyEphemeron(o) || AnyFinalization(o) }

  function ClearSlot(dead: set<Ref>, s: Slot): Slot {
    match s
    case Weak(Some(t)) => if t in dead then Weak(None) else s
    case Ephemeron(k, _) => if k.None? || k.value in dead then Ephemeron(None, None) else s
    case _ => s
  }

  function FinalizeSlot(dead: set<Ref>, s: Slot): Slot {
    match s
    case Finalization(Some(t), _) => if t in dead then Finalization(None, None) else s
    case _ => s
  }

  function SlotRecords(dead: set<Ref>, owner: Ref, s: Slot): seq<Record> {
    match s
    case Finalization(Some(t), h) => if t in dead then [Record(owner, h)] else []
    case _ => []
  }

  function ClearObject(dead: set<Ref>, o: Object): (c: Object)
    ensures |c| == |o|
  {
    seq(|o|, i requires 0 <= i < |o| => ClearSlot(dead, o[i]))
  }

  function FinalizeObject(dead: set<Ref>, o: Object): (c: Object)
    ensures |c| == |o|
  {
    seq(|o|, i requires 0 <= i < |o| => FinalizeSlot(dead, o[i]))
  }

  /** The records one owner queues, in slot order. */
  function ObjectRecords(dead: set<Ref>, owner: Ref, o: Object): seq<Record> {
    if o == [] then []
    else ObjectRecords(dead, owner, o[..|o| - 1]) + SlotRecords(dead, owner, o[|o| - 1])
  }

  /** The records of a whole owner worklist, in worklist order. */
  ghost function OwnerRecords(dead: set<Ref>, objects: map<Ref, Object>, owners: seq<Ref>): seq<Record>
    requires forall x | x in owners :: x in objects
  {
    if owners == [] then []
    else
      var x := owners[|owners| - 1];
      OwnerRecords(dead, objects, owners[..|owners| - 1]) + ObjectRecords(dead, x, objects[x])
  }

  /** An owner whose first `k` slots have been through the clearing phase. */
  function PartlyCleared(dead: set<Ref>, o: Object, k: nat): Object
    requires k <= |o|
  {
    ClearObject(dead, o[..k]) + o[k..]
  }

  function PartlyFinalized(dead: set<Ref>, o: Object, k: nat): Object
    requires k <= |o|
  {
    FinalizeObject(dead, o[..k]) + o[k..]
  }

  lemma PartlyClearedEnds(dead: set<Ref>, o: Object)
    ensures PartlyCleared(dead, o, 0) == o && PartlyCleared(dead, o, |o|) == ClearObject(dead, o)
  {
    assert o[..|o|] == o;
  }

  lemma PartlyClearedStep(dead: set<Ref>, o: Object, i: nat)
    requires i < |o|
    ensures |PartlyCleared(dead, o, i)| == |o| && PartlyCleared(dead, o, i)[i] == o[i]
    ensures PartlyCleared(dead, o, i)[i := ClearSlot(dead, o[i])] == PartlyCleared(dead, o, i + 1)
  {
  }

  lemma PartlyFinalizedEnds(dead: set<Ref>, x: Ref, o: Object)
    ensures PartlyFinalized(dead, o, 0) == o && PartlyFinalized(dead, o, |o|) == FinalizeObject(dead, o)
    ensures ObjectRecords(dead, x, o[..0]) == [] && ObjectRecords(dead, x, o[..|o|]) == ObjectRecords(dead, x, o)
  {
    assert o[..|o|] == o;
  }

  lemma PartlyFinalizedStep(dead: set<Ref>, x: Ref, o: Object, i: nat)
    requires i < |o|
    ensures |PartlyFinalized(dead, o, i)| == |o| && PartlyFinalized(dead, o, i)[i] == o[i]
    ensures PartlyFinalized(dead, o, i)[i := FinalizeSlot(dead, o[i])] == PartlyFinalized(dead, o, i + 1)
    ensures ObjectRecords(dead, x, o[..i + 1]) == ObjectRecords(dead, x, o[..i]) + SlotRecords(dead, x, o[i])
  {
    assert o[..i + 1][..i] == o[..i];
  }

  /** Payloads after both weak phases: exactly the weak owners among `live` are processed. */
  ghost function AfterWeakPhases(p: Problem, marks: set<Ref>): map<Ref, Object> {
    map r | r in p.objects ::
      if (r in marks || r in p.sources) && IsWeakOwner(p.objects[r])
      then FinalizeObject(p.scope - marks, ClearObject(p.scope - marks, p.objects[r]))
      else p.objects[r]
  }

  /** The worklist names every live weak owner exactly once. */
  ghost predicate OwnerWorklist(p: Problem, marks: set<Ref>, owners: seq<Ref>) {
    && NoDuplicates(owners)
    && forall r :: r in owners <==>
         r in p.objects && (r in marks || r in p.sources) && IsWeakOwner(p.objects[r])
  }

  /** A slot of the same kind that names nothing. */
  function Blank(s: Slot): Slot {
    match s
    case Strong(_) => Strong(None)
    case Weak(_) => Weak(None)
    case Ephemeron(_, _) => Ephemeron(None, None)
    case Finalization(_, _) => Finalization(None, None)
  }

  /** Rewriting a slot leaves it alone or empties it; plain edges are never touched. */
  ghost predicate Shrunk(s': Slot, s: Slot) { s' == s || (!s.Strong? && s' == Blank(s)) }

  ghost predicate ObjectShrunk(o': Object, o: Object) {
    |o'| == |o| && forall i | 0 <= i < |o| :: Shrunk(o'[i], o[i])
  }

  ghost predicate AllShrunk(objects': map<Ref, Object>, objects: map<Ref, Object>) {
    objects'.Keys == objects.Keys && forall r | r in objects :: ObjectShrunk(objects'[r], objects[r])
  }

  lemma ShrunkTransitive(a: Object, b: Object, c: Object)
    requires ObjectShrunk(a, b) && ObjectShrunk(b, c)
    ensures ObjectShrunk(a, c)
  {
    forall i | 0 <= i < |c| ensures Shrunk(a[i], c[i]) {
      assert Shrunk(a[i], b[i]) && Shrunk(b[i], c[i]);
    }
  }

  lemma ShrunkSlot(o': Object, o: Object, i: nat)
    requires ObjectShrunk(o', o) && i < |o'|
    ensures |o'| == |o| && Refs(o'[i]) <= Refs(o[i])
  {
    assert Shrunk(o'[i], o[i]);
  }

  lemma PartlyClearedShrinks(dead: set<Ref>, o: Object, k: nat)
    requires k <= |o|
    ensures ObjectShrunk(PartlyCleared(dead, o, k), o)
  {
  }

  lemma PartlyFinalizedShrinks(dead: set<Ref>, o: Object, k: nat)
    requires k <= |o|
    ensures ObjectShrunk(PartlyFinalized(dead, o, k), o)
  {
  }

  /** The clearing phase does not touch registrations. */
  lemma {:induction false} RecordsAfterClearing(dead: set<Ref>, x: Ref, o: Object)
    ensures ObjectRecords(dead, x, ClearObject(dead, o)) == ObjectRecords(dead, x, o)
  {
    if o != [] {
      var init := o[..|o| - 1];
      RecordsAfterClearing(dead, x, init);
      assert ClearObject(dead, o)[..|o| - 1] == ClearObject(dead, init);
    }
  }

  /** An object without active registrations is skipped by the enqueue phase, and nothing is lost. */
  lemma {:induction false} NothingToFinalize(dead: set<Ref>, x: Ref, o: Object)
    requires !AnyFinalization(o)
    ensures FinalizeObject(dead, o) == o && ObjectRecords(dead, x, o) == []
  {
    forall i | 0 <= i < |o| ensures FinalizeSlot(dead, o[i]) == o[i] && SlotRecords(dead, x, o[i]) == [] {
      assert !FinalizationActive(o[i]);
    }
    if o != [] {
      NothingToFinalize(dead, x, o[..|o| - 1]);
    }
  }

  lemma ClearingKeepsRegistrations(dead: set<Ref>, o: Object)
    ensures AnyFinalization(ClearObject(dead, o)) <==> AnyFinalization(o)
  {
    forall i | 0 <= i < |o| ensures FinalizationActive(ClearObject(dead, o)[i]) <==> FinalizationActive(o[i]) {
    }
  }

  /** A queued record names its live owner and a value that owner held strongly. */
  ghost predicate RecordLive(p: Problem, marks: set<Ref>, rec: Record) {
    && rec.owner in p.objects && (rec.owner in marks || rec.owner in p.sources)
    && exists j :: 0 <= j < |p.objects[rec.owner]| && StrongTarget(p.objects[rec.owner][j]) == rec.held
  }

  ghost predicate RecordsLive(p: Problem, marks: set<Ref>, records: seq<Record>) {
    forall i | 0 <= i < |records| :: RecordLive(p, marks, records[i])
  }

  lemma {:induction false} ObjectRecordsLive(p: Problem, marks: set<Ref>, dead: set<Ref>, x: Ref, o: Object)
    requires x in p.objects && (x in marks || x in p.sources)
    requires |o| <= |p.objects[x]|
    requires forall i | 0 <= i < |o| && FinalizationActive(o[i]) :: o[i] == p.objects[x][i]
    ensures RecordsLive(p, marks, ObjectRecords(dead, x, o))
  {
    if o != [] {
      var last := |o| - 1;
      ObjectRecordsLive(p, marks, dead, x, o[..last]);
      if FinalizationActive(o[last]) {
        assert StrongTarget(p.objects[x][last]) == o[last].held;
      }
    }
  }

  /** Payloads once the owners in `refs` have been cleared. */
  ghost function Cleared(p: Problem, dead: set<Ref>, refs: seq<Ref>): map<Ref, Object> {
    map r | r in p.objects :: if r in refs then ClearObject(dead, p.objects[r]) else p.objects[r]
  }

  /** Payloads once the owners in `refs` have also been finalized. */
  ghost function Finalized(p: Problem, dead: set<Ref>, owners: seq<Ref>, refs: seq<Ref>): map<Ref, Object> {
    map r | r in p.objects ::
      if r in refs then FinalizeObject(dead, ClearObject(dead, p.objects[r]))
      else if r in owners then ClearObject(dead, p.objects[r])
      else p.objects[r]
  }

  lemma ClearedStep(p: Problem, dead: set<Ref>, refs: seq<Ref>, j: nat)
    requires j < |refs| && NoDuplicates(refs) && refs[j] in p.objects
    ensures refs[j] in Cleared(p, dead, refs[..j])
    ensures Cleared(p, dead, refs[..j])[refs[j]] == p.objects[refs[j]]
    ensures Cleared(p, dead, refs[..j])[refs[j] := ClearObject(dead, p.objects[refs[j]])] == Cleared(p, dead, refs[..j + 1])
  {
    assert refs[..j + 1] == refs[..j] + [refs[j]];
  }

  lemma FinalizedStep(p: Problem, dead: set<Ref>, refs: seq<Ref>, j: nat)
    requires j < |refs| && NoDuplicates(refs) && forall x | x in refs :: x in p.objects
    ensures refs[j] in Finalized(p, dead, refs, refs[..j])
    ensures Finalized(p, dead, refs, refs[..j])[refs[j]] == ClearObject(dead, p.objects[refs[j]])
    ensures Finalized(p, dead, refs, refs[..j])
              [refs[j] := FinalizeObject(dead, ClearObject(dead, p.objects[refs[j]]))]
            == Finalized(p, dead, refs, refs[..j + 1])
    ensures OwnerRecords(dead, p.objects, refs[..j + 1])
            == OwnerRecords(dead, p.objects, refs[..j]) + ObjectRecords(dead, refs[j], p.objects[refs[j]])
  {
    assert refs[..j + 1] == refs[..j] + [refs[j]];
    assert refs[..j + 1][..j] == refs[..j];
  }

  lemma ClearedShrinks(p: Problem, dead: set<Ref>, refs: seq<Ref>)
    ensures AllShrunk(Cleared(p, dead, refs), p.objects)
  {
    forall r | r in p.objects ensures ObjectShrunk(ClearObject(dead, p.objects[r]), p.objects[r]) {
      PartlyClearedShrinks(dead, p.objects[r], |p.objects[r]|);
      PartlyClearedEnds(dead, p.objects[r]);
    }
  }

  lemma FinalizedShrinks(p: Problem, dead: set<Ref>, owners: seq<Ref>, refs: seq<Ref>)
    ensures AllShrunk(Finalized(p, dead, owners, refs), p.objects)
  {
    forall r | r in p.objects
      ensures ObjectShrunk(ClearObject(dead, p.objects[r]), p.objects[r])
      ensures ObjectShrunk(FinalizeObject(dead, ClearObject(dead, p.objects[r])), p.objects[r])
    {
      var c := ClearObject(dead, p.objects[r]);
      PartlyClearedShrinks(dead, p.objects[r], |p.objects[r]|);
      PartlyClearedEnds(dead, p.objects[r]);
      PartlyFinalizedShrinks(dead, c, |c|);
      PartlyFinalizedEnds(dead, r, c);
      ShrunkTransitive(FinalizeObject(dead, c), c, p.objects[r]);
    }
  }

  lemma ShrunkUpdate(objects: map<Ref, Object>, base: map<Ref, Object>, x: Ref, o: Object)
    requires AllShrunk(objects, base) && x in base && ObjectShrunk(o, objects[x])
    ensures AllShrunk(objects[x := o], base)
  {
    ShrunkTransitive(o, objects[x], base[x]);
  }

  lemma FinalizedComplete(p: Problem, marks: set<Ref>, refs: seq<Ref>)
    requires OwnerWorklist(p, marks, refs)
    ensures Finalized(p, p.scope - marks, refs, refs) == AfterWeakPhases(p, marks)
  {
  }

  lemma AfterWeakPhasesShrinks(p: Problem, marks: set<Ref>)
    ensures AllShrunk(AfterWeakPhases(p, marks), p.objects)
  {
  }

  // ----- Weak phases that stop part-way -----

  /** The clearing phase has done `j` owners and `k` slots of the next; nothing is queued yet. */
  ghost predicate ClearingStopped(p: Problem, dead: set<Ref>, owners: seq<Ref>, objects: map<Ref, Object>, records: seq<Record>,
                                  j: nat, k: nat) {
    && j < |owners| && owners[j] in p.objects && k <= |p.objects[owners[j]]| && records == []
    && objects == Cleared(p, dead, owners[..j])[owners[j] := PartlyCleared(dead, p.objects[owners[j]], k)]
  }

  /** The enqueue phase has done `j` owners and `k` slots of the next: the emptied registrations are queued, the others are not. */
  ghost predicate QueueingStopped(p: Problem, dead: set<Ref>, owners: seq<Ref>, objects: map<Ref, Object>, records: seq<Record>,
                                  j: nat, k: nat) {
    && j < |owners| && (forall x | x in owners :: x in p.objects) && k <= |p.objects[owners[j]]|
    && var o := ClearObject(dead, p.objects[owners[j]]);
    && objects == Finalized(p, dead, owners, owners[..j])[owners[j] := PartlyFinalized(dead, o, k)]
    && records == OwnerRecords(dead, p.objects, owners[..j]) + ObjectRecords(dead, owners[j], o[..k])
  }

  /** Marking is complete, and the weak phases have stopped at some slot of some owner. */
  ghost predicate WeakPhasesStopped(p: Problem, marks: set<Ref>, owners: seq<Ref>, objects: map<Ref, Object>, records: seq<Record>) {
    && LeastClosed(p, marks) && OwnerWorklist(p, marks, owners)
    && ((exists j, k :: ClearingStopped(p, p.scope - marks, owners, objects, records, j, k))
        || (exists j, k :: QueueingStopped(p, p.scope - marks, owners, objects, records, j, k)))
  }

  /** A keyless ephemeron that still holds a value: neither the ephemeron pass nor, without another
      active weak item in the same object, the clearing pass looks at it. */
  ghost predicate Keyless(s: Slot) { s.Ephemeron? && s.key.None? && s.value.Some? }

  ghost predicate Inert(o: Object) { forall i | 0 <= i < |o| :: !Keyless(o[i]) }

  /** No live object names a dead one, through any kind of slot. */
  ghost predicate SurvivorsClean(p: Problem, marks: set<Ref>, objects: map<Ref, Object>)
    requires objects.Keys == p.objects.Keys
  {
    forall r, i | r in objects && (r in marks || r in p.sources) && 0 <= i < |objects[r]| ::
      Refs(objects[r][i]) !! (p.scope - marks)
  }

  /** The objects the weak phases miss. */
  ghost predicate KeylessLeak(p: Problem, marks: set<Ref>, r: Ref, i: nat) {
    && r in p.objects && (r in marks || r in p.sources) && i < |p.objects[r]|
    && !IsWeakOwner(p.objects[r])
    && Keyless(p.objects[r][i]) && p.objects[r][i].value.value in p.scope - marks
  }

  lemma ProcessedSlotClean(p: Problem, marks: set<Ref>, r: Ref, i: nat)
    requires Closed(p, marks) && r in p.objects && (r in marks || r in p.sources)
    requires IsWeakOwner(p.objects[r]) && i < |p.objects[r]|
    ensures Refs(AfterWeakPhases(p, marks)[r][i]) !! (p.scope - marks)
  {
    assert Included(p, marks, StrongTarget(p.objects[r][i]));
    assert EphemeronSlotClosed(p, marks, p.objects[r][i]);
  }

  lemma UntouchedSlotClean(p: Problem, marks: set<Ref>, r: Ref, i: nat)
    requires Closed(p, marks) && r in p.objects && (r in marks || r in p.sources)
    requires !IsWeakOwner(p.objects[r]) && i < |p.objects[r]|
    ensures Refs(p.objects[r][i]) !! (p.scope - marks) <==> !KeylessLeak(p, marks, r, i)
  {
    assert Included(p, marks, StrongTarget(p.objects[r][i]));
    assert !WeakActive(p.objects[r][i]) && !EphemeronActive(p.objects[r][i]) && !FinalizationActive(p.objects[r][i]);
  }

  /** Weak closure is complete exactly when no live object outside the worklist keeps a keyless
      ephemeron whose value died. */
  lemma WeakClosureComplete(p: Problem, marks: set<Ref>)
    requires Closed(p, marks)
    ensures SurvivorsClean(p, marks, AfterWeakPhases(p, marks))
            <==> forall r, i :: !KeylessLeak(p, marks, r, i)
  {
    var after := AfterWeakPhases(p, marks);
    if forall r, i :: !KeylessLeak(p, marks, r, i) {
      forall r, i | r in after && (r in marks || r in p.sources) && 0 <= i < |after[r]|
        ensures Refs(after[r][i]) !! (p.scope - marks)
      {
        if IsWeakOwner(p.objects[r]) {
          ProcessedSlotClean(p, marks, r, i);
        } else {
          UntouchedSlotClean(p, marks, r, i);
        }
      }
    }
    forall r, i | KeylessLeak(p, marks, r, i)
      ensures !SurvivorsClean(p, marks, after)
    {
      UntouchedSlotClean(p, marks, r, i);
      assert after[r] == p.objects[r];
    }
  }

  /** One object holding nothing but a keyless ephemeron leaks its value. */
  lemma KeylessLeakExample()
    ensures
      var a, b := Ref(0, 16), Ref(0, 32);
      var p := Problem(map[a := [Ephemeron(None, Some(b))], b := []], {a, b}, {a}, {});
      LeastClosed(p, {a}) && !SurvivorsClean(p, {a}, AfterWeakPhases(p, {a}))
  {
    var a, b := Ref(0, 16), Ref(0, 32);
    var p := Problem(map[a := [Ephemeron(None, Some(b))], b := []], {a, b}, {a}, {});
    assert Closed(p, {a});
    assert a in p.seeds * p.scope;
    assert KeylessLeak(p, {a}, a, 0);
    WeakClosureComplete(p, {a});
  }

  // ----- Which slots the weak phases leave alone -----

  /** A slot none of whose referents is dead stays as it is, unless it is an ephemeron without key. */
  lemma LiveSlotStays(p: Problem, marks: set<Ref>, r: Ref, i: nat)
    requires r in p.objects && i < |p.objects[r]|
    requires Refs(p.objects[r][i]) !! (p.scope - marks) && !Keyless(p.objects[r][i])
    ensures AfterWeakPhases(p, marks)[r][i] == p.objects[r][i]
  {
    var slot := p.objects[r][i];
    assert slot.Weak? && slot.weak.Some? ==> slot.weak.value in Refs(slot);
    assert slot.Ephemeron? && slot.key.Some? ==> slot.key.value in Refs(slot);
    assert slot.Finalization? && slot.registered.Some? ==> slot.registered.value in Refs(slot);
  }

  /** Objects that are neither live nor weak owners are not touched at all. */
  lemma OtherObjectsStay(p: Problem, marks: set<Ref>, r: Ref)
    requires r in p.objects && ((r !in marks && r !in p.sources) || !IsWeakOwner(p.objects[r]))
    ensures AfterWeakPhases(p, marks)[r] == p.objects[r]
  {
  }

  /** In a live object each slot is kept as it is when everything it names is live, and emptied otherwise. */
  lemma LiveObjectSlots(p: Problem, marks: set<Ref>, r: Ref, i: nat)
    requires Closed(p, marks) && r in p.objects && (r in marks || r in p.sources)
    requires i < |p.objects[r]| && !Keyless(p.objects[r][i])
    ensures AfterWeakPhases(p, marks)[r][i]
            == if Refs(p.objects[r][i]) !! (p.scope - marks) then p.objects[r][i] else Blank(p.objects[r][i])
  {
    var slot := p.objects[r][i];
    if Refs(slot) !! (p.scope - marks) {
      LiveSlotStays(p, marks, r, i);
    } else {
      assert Included(p, marks, StrongTarget(slot));
      assert EphemeronSlotClosed(p, marks, slot);
      assert WeakActive(slot) || EphemeronActive(slot) || FinalizationActive(slot);
      assert IsWeakOwner(p.objects[r]);
    }
  }

  ghost predicate DeadRegistration(dead: set<Ref>, s: Slot) {
    FinalizationActive(s) && s.registered.value in dead
  }

  /** `slots` lists the registrations with a dead target in slot order, and each of them, alone, accounts
      for the record at its own position in the queue. */
  ghost predicate OneRecordEach(dead: set<Ref>, owner: Ref, o: Object, records: seq<Record>, slots: seq<int>) {
    && |records| == |slots|
    && (forall j | 0 <= j < |slots| :: 0 <= slots[j] < |o| && DeadRegistration(dead, o[slots[j]]))
    && (forall j | 0 <= j < |slots| :: 0 <= slots[j] < |o| && records[j] == Record(owner, o[slots[j]].held))
    && (forall j, k | 0 <= j < k < |slots| :: slots[j] < slots[k])
    && (forall i | 0 <= i < |o| && DeadRegistration(dead, o[i]) :: i in slots)
  }

  lemma OneMoreSlot(dead: set<Ref>, owner: Ref, o: Object, records: seq<Record>, slots: seq<int>, s: Slot)
    requires OneRecordEach(dead, owner, o, records, slots)
    ensures OneRecordEach(dead, owner, o + [s], records + SlotRecords(dead, owner, s),
                          if DeadRegistration(dead, s) then slots + [|o|] else slots)
  {
    var longer := if DeadRegistration(dead, s) then slots + [|o|] else slots;
    forall i | 0 <= i < |o + [s]| && DeadRegistration(dead, (o + [s])[i]) ensures i in longer {
      if i < |o| {
        assert DeadRegistration(dead, o[i]);
      }
    }
  }

  lemma NoRecords(dead: set<Ref>, owner: Ref)
    ensures OneRecordEach(dead, owner, [], [], [])
  {
  }

  /** Each registration with a dead target yields exactly one record, and no other record is queued. */
  lemma {:induction false} RecordsMatchRegistrations(dead: set<Ref>, owner: Ref, o: Object)
    ensures exists slots :: OneRecordEach(dead, owner, o, ObjectRecords(dead, owner, o), slots)
  {
    hide OneRecordEach, DeadRegistration, SlotRecords;
    if o == [] {
      NoRecords(dead, owner);
      assert OneRecordEach(dead, owner, o, ObjectRecords(dead, owner, o), []);
    } else {
      var init, last := o[..|o| - 1], o[|o| - 1];
      RecordsMatchRegistrations(dead, owner, init);
      var slots :| OneRecordEach(dead, owner, init, ObjectRecords(dead, owner, init), slots);
      OneMoreSlot(dead, owner, init, ObjectRecords(dead, owner, init), slots, last);
      var longer := if DeadRegistration(dead, last) then slots + [|init|] else slots;
      assert o == init + [last];
      assert OneRecordEach(dead, owner, o, ObjectRecords(dead, owner, o), longer);
    }
  }
}
