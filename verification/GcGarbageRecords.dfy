/**
 * A minor collection while garbage of a failed sweep sits on a dirty card. The mark then takes the
 * garbage for live, and may queue a cleanup record that names it: a root of every later mark.
 */
module GcGarbageRecords {
  import opened Options
  import opened GcObjects
  import opened GcLiveness
  import opened GcWeakPhases
  import opened GcTricolor
  import opened GcGenerations
  import opened GcCollections
  import opened GcPartialSweeps
  import opened GcSweepStops

  // ----- Exactly when such a record is queued -----

  ghost predicate Queues(records: seq<Record>, x: Ref) { exists i :: 0 <= i < |records| && records[i].owner == x }

  ghost predicate RegistersAny(dead: set<Ref>, o: Object) { exists i :: 0 <= i < |o| && DeadRegistration(dead, o[i]) }

  lemma QueuesAppend(a: seq<Record>, b: seq<Record>, x: Ref)
    ensures Queues(a + b, x) <==> Queues(a, x) || Queues(b, x)
  {
    if Queues(a, x) {
      var i :| 0 <= i < |a| && a[i].owner == x;
      assert (a + b)[i] == a[i];
    }
    if Queues(b, x) {
      var i :| 0 <= i < |b| && b[i].owner == x;
      assert (a + b)[|a| + i] == b[i];
    }
  }

  lemma {:induction false} ObjectQueuesIff(dead: set<Ref>, owner: Ref, o: Object, x: Ref)
    ensures Queues(ObjectRecords(dead, owner, o), x) <==> x == owner && RegistersAny(dead, o)
  {
    if o != [] {
      var init, last := o[..|o| - 1], o[|o| - 1];
      ObjectQueuesIff(dead, owner, init, x);
      QueuesAppend(ObjectRecords(dead, owner, init), SlotRecords(dead, owner, last), x);
      SlotQueuesIff(dead, owner, last, x);
      RegistersLast(dead, o);
    }
  }

  lemma SlotQueuesIff(dead: set<Ref>, owner: Ref, slot: Slot, x: Ref)
    ensures Queues(SlotRecords(dead, owner, slot), x) <==> x == owner && DeadRegistration(dead, slot)
  {
    if DeadRegistration(dead, slot) {
      assert SlotRecords(dead, owner, slot)[0].owner == owner;
    }
  }

  lemma RegistersLast(dead: set<Ref>, o: Object)
    requires o != []
    ensures RegistersAny(dead, o) <==> RegistersAny(dead, o[..|o| - 1]) || DeadRegistration(dead, o[|o| - 1])
  {
    hide DeadRegistration;
    var init := o[..|o| - 1];
    if RegistersAny(dead, init) {
      var i :| 0 <= i < |init| && DeadRegistration(dead, init[i]);
      assert o[i] == init[i];
    }
    if RegistersAny(dead, o) {
      var i :| 0 <= i < |o| && DeadRegistration(dead, o[i]);
      assert i < |init| ==> init[i] == o[i];
    }
  }

  lemma {:induction false} OwnersQueueIff(dead: set<Ref>, objects: map<Ref, Object>, owners: seq<Ref>, x: Ref)
    requires forall y | y in owners :: y in objects
    ensures Queues(OwnerRecords(dead, objects, owners), x) <==> x in owners && RegistersAny(dead, objects[x])
  {
    hide RegistersAny, ObjectRecords;
    if owners != [] {
      var init, last := owners[..|owners| - 1], owners[|owners| - 1];
      OwnersQueueIff(dead, objects, init, x);
      ObjectQueuesIff(dead, last, objects[last], x);
      QueuesAppend(OwnerRecords(dead, objects, init), ObjectRecords(dead, last, objects[last]), x);
      assert owners == init + [last];
    }
  }

  /** `x` has a registration whose target nothing keeps. */
  ghost predicate RegistersDead(p: Problem, x: Ref) {
    x in p.objects && exists i :: 0 <= i < |p.objects[x]| && FinalizationActive(p.objects[x][i]) && Dead(p, p.objects[x][i].registered.value)
  }

  /** A collection queues a record of a garbage object exactly when the mark visits one with a registration
      whose target nothing keeps. */
  lemma GarbageQueuedIff(p: Problem, g: set<Ref>, marks: set<Ref>, owners: seq<Ref>)
    requires LeastClosed(p, marks) && OwnerWorklist(p, marks, owners) && p.scope <= p.objects.Keys
    ensures forall x | x in owners :: x in p.objects
    ensures (exists x | x in g :: Queues(OwnerRecords(p.scope - marks, p.objects, owners), x))
      <==> exists x | x in g && Traced(p, x) :: RegistersDead(p, x)
  {
    hide LeastClosed, Traced, RegistersDead, OwnerRecords, Queues, IsWeakOwner;
    forall x ensures Queues(OwnerRecords(p.scope - marks, p.objects, owners), x) <==> Traced(p, x) && RegistersDead(p, x) {
      OwnersQueueIff(p.scope - marks, p.objects, owners, x);
      OwnerTraced(p, marks, x);
    }
    if x :| x in g && Traced(p, x) && RegistersDead(p, x) {
      assert Queues(OwnerRecords(p.scope - marks, p.objects, owners), x);
    }
  }

  lemma OwnerTraced(p: Problem, marks: set<Ref>, x: Ref)
    requires LeastClosed(p, marks)
    ensures Traced(p, x) <==> x in p.objects && (x in marks || x in p.sources)
    ensures x in p.objects ==> (RegistersDead(p, x) <==> RegistersAny(p.scope - marks, p.objects[x]))
    ensures x in p.objects && RegistersAny(p.scope - marks, p.objects[x]) ==> IsWeakOwner(p.objects[x])
  {
    hide LeastClosed, Dead;
    LeastBelow(p, marks);
    forall r ensures Dead(p, r) <==> r in p.scope - marks {
      DeadIffWhite(p, marks, r);
    }
    if x in p.scope && x !in marks {
      DeadIffWhite(p, marks, x);
      assert Dead(p, x);
      NotForced(p, x);
    }
    if x in p.objects && (x in marks || x in p.sources) {
      LeastTraced(p, marks, x);
    }
    if x in p.objects && RegistersAny(p.scope - marks, p.objects[x]) {
      var i :| 0 <= i < |p.objects[x]| && DeadRegistration(p.scope - marks, p.objects[x][i]);
      assert FinalizationActive(p.objects[x][i]);
    }
  }

  lemma NotForced(p: Problem, x: Ref)
    requires Dead(p, x)
    ensures !Forced(p, x)
  {
  }

  // ----- One heap, three collections -----

  const REGISTRY := Ref(0, 16)
  const KEEPER := Ref(1, 16)
  const TARGET := Ref(2, 16)
  const KEPT := Ref(3, 16)

  const REGISTERED: Object := [Finalization(Some(TARGET), None), Strong(Some(KEEPER))]
  const KEEPING: Object := [Strong(Some(KEPT))]

  /** Nothing is reachable: a dirty registry over a Young target, and a chain of two further Old objects. */
  const UNREACHABLE := State(
    map[REGISTRY := REGISTERED, KEEPER := KEEPING, TARGET := [], KEPT := []],
    map[0 := Small(Old, 15, {0}), 1 := Small(Old, 15, {}), 2 := Small(Eden, 15, {}), 3 := Small(Old, 15, {})],
    [0], [2], [], [])

  /** The major sweep released the highest span and was refused the next. */
  const STOPPED := State(
    map[REGISTRY := REGISTERED, KEEPER := KEEPING, TARGET := []],
    map[0 := Small(Old, 15, {0}), 1 := Small(Old, 15, {}), 2 := Small(Eden, 15, {})],
    [0], [2], [], [])

  /** The minor collection took the registry for live. */
  const QUEUED := State(
    map[REGISTRY := [Finalization(None, None), Strong(Some(KEEPER))], KEEPER := KEEPING],
    map[0 := Small(Old, 15, {}), 1 := Small(Old, 15, {})],
    [], [], [], [Record(REGISTRY, None)])

  lemma UnreachableAllocated()
    ensures NoDangling(UNREACHABLE) && AllInert(UNREACHABLE.objects)
  {
    assert RecordRefs([]) == {};
    forall r | r in UNREACHABLE.objects ensures PayloadAllocated(UNREACHABLE.objects, UNREACHABLE.objects[r]) {
    }
  }

  lemma UnreachableCovered()
    ensures BarrierContract(UNREACHABLE) && ChainsSound(UNREACHABLE)
  {
    var s := UNREACHABLE;
    assert Card(REGISTRY) == 0;
    NoYoungEdges(s);
  }

  /** Only the registry names a Young object. */
  lemma NoYoungEdges(s: State)
    requires s == UNREACHABLE
    ensures !HasYoungEdge(s.objects, s.spans, KEEPING) && !HasYoungEdge(s.objects, s.spans, [])
  {
    assert !YoungRef(s.objects, s.spans, KEPT);
  }

  lemma UnreachableValid()
    ensures Valid(UNREACHABLE)
  {
    hide NoDangling, BarrierContract, ChainsSound, AllInert;
    UnreachableAllocated();
    UnreachableCovered();
  }

  lemma NothingReachable()
    ensures LeastClosed(MajorProblem(UNREACHABLE), {}) && OwnerWorklist(MajorProblem(UNREACHABLE), {}, [])
    ensures AfterWeakPhases(MajorProblem(UNREACHABLE), {}) == UNREACHABLE.objects
  {
    assert MajorProblem(UNREACHABLE).seeds == {} by { assert RecordRefs([]) == {}; }
  }

  lemma SweepStopped()
    ensures MajorStopped(UNREACHABLE, STOPPED, {}, [], Stop(2, 0)) && RefusedAt(UNREACHABLE, Stop(2, 0))
  {
    hide LeastClosed, OwnerWorklist, AfterWeakPhases, Dead;
    var s, p := UNREACHABLE, MajorProblem(UNREACHABLE);
    NothingReachable();
    DeadIffWhite(p, {}, TARGET);
    assert DeadIn(p, {}, MajorBefore(Stop(2, 0))) == {KEPT};
    assert forall id :: LiveIn({}, id) == {};
    assert Emptied(s, p, 2);
  }

  lemma RegistryProblem()
    ensures MinorProblem(STOPPED).scope == {TARGET} && MinorProblem(STOPPED).sources == {REGISTRY}
    ensures MinorProblem(STOPPED).seeds == {} && MinorProblem(STOPPED).objects == STOPPED.objects
  {
    assert RecordRefs([]) == {};
    assert Card(REGISTRY) == 0;
  }

  lemma RegistryRecords()
    ensures OwnerRecords({TARGET}, STOPPED.objects, [REGISTRY]) == [Record(REGISTRY, None)]
  {
    assert ObjectRecords({TARGET}, REGISTRY, REGISTERED) == [Record(REGISTRY, None)] by {
      assert REGISTERED[..1] == [REGISTERED[0]] && [REGISTERED[0]][..0] == [];
      assert ObjectRecords({TARGET}, REGISTRY, [REGISTERED[0]]) == [Record(REGISTRY, None)];
    }
    assert OwnerRecords({TARGET}, STOPPED.objects, [REGISTRY][..0]) == [];
  }

  lemma RegistryMarked()
    ensures LeastClosed(MinorProblem(STOPPED), {})
  {
    hide MinorProblem;
    RegistryProblem();
  }

  lemma RegistryLive()
    ensures LeastClosed(MinorProblem(STOPPED), {}) && OwnerWorklist(MinorProblem(STOPPED), {}, [REGISTRY])
    ensures AfterWeakPhases(MinorProblem(STOPPED), {})[REGISTRY] == [Finalization(None, None), Strong(Some(KEEPER))]
    ensures OwnerRecords({TARGET}, STOPPED.objects, [REGISTRY]) == [Record(REGISTRY, None)]
    ensures MinorProblem(STOPPED).scope == {TARGET} && MinorProblem(STOPPED).sources == {REGISTRY}
  {
    hide MinorProblem, LeastClosed, OwnerRecords;
    RegistryProblem();
    RegistryMarked();
    RegistryRecords();
    assert FinalizationActive(REGISTERED[0]) && AnyFinalization(REGISTERED);
  }

  lemma SpansPrepared(objects: map<Ref, Object>)
    requires objects == AfterWeakPhases(MinorProblem(STOPPED), {})
    requires objects[REGISTRY] == [Finalization(None, None), Strong(Some(KEEPER))]
    ensures PreparedSpans(objects, RebuiltSpans(objects, STOPPED.spans, [0]), [2], {})
      == map[0 := Small(Old, 15, {}), 1 := Small(Old, 15, {}), 2 := Small(Eden, 15, {})]
  {
    hide AfterWeakPhases;
    var s := STOPPED;
    assert objects.Keys == s.objects.Keys by { AfterWeakPhasesShrinks(MinorProblem(s), {}); }
    assert !YoungRef(objects, s.spans, KEEPER);
    assert !HasYoungEdge(objects, s.spans, objects[REGISTRY]);
    assert RebuiltCards(objects, s.spans, 0) == {};
    assert RebuiltSpans(objects, s.spans, [0])[2] == Small(Eden, 15, {});
    assert LiveIn({}, 2) == {};
  }

  lemma RegistrySwept(objects: map<Ref, Object>)
    requires objects.Keys == {REGISTRY, KEEPER, TARGET} && objects[KEEPER] == KEEPING
    requires objects[REGISTRY] == [Finalization(None, None), Strong(Some(KEEPER))]
    ensures QUEUED.objects == Without(objects, {TARGET})
  {
  }

  lemma KeeperUntouched()
    ensures AfterWeakPhases(MinorProblem(STOPPED), {}).Keys == {REGISTRY, KEEPER, TARGET}
    ensures AfterWeakPhases(MinorProblem(STOPPED), {})[KEEPER] == KEEPING
  {
    hide IsWeakOwner, YoungObjects, Seeds;
    assert STOPPED.objects.Keys == {REGISTRY, KEEPER, TARGET};
    assert KEEPER !in MinorProblem(STOPPED).sources;
  }

  lemma TargetReleased(prepared: map<nat, Span>)
    requires prepared == map[0 := Small(Old, 15, {}), 1 := Small(Old, 15, {}), 2 := Small(Eden, 15, {})]
    ensures SweptSpans(prepared, QUEUED.spans, [2], {})
  {
    assert LiveIn({}, 2) == {};
  }

  lemma RecordQueued()
    ensures MinorCollected(STOPPED, QUEUED, {}, [REGISTRY])
  {
    hide LeastClosed, OwnerWorklist, OwnerRecords, DirtySources, Seeds, PreparedSpans, RebuiltSpans, SweptSpans, Without,
      AfterWeakPhases;
    RegistryLive();
    var p := MinorProblem(STOPPED);
    var objects := AfterWeakPhases(p, {});
    SpansPrepared(objects);
    KeeperUntouched();
    RegistrySwept(objects);
    TargetReleased(PreparedSpans(objects, RebuiltSpans(objects, STOPPED.spans, [0]), [2], {}));
    assert p.scope - {} == {TARGET};
  }

  /** From a valid heap a failed major sweep and a completed minor collection lead to a queued record of dead
      garbage, and every later major mark meets a reference to an object that is gone. */
  lemma GarbageQueued()
    ensures Valid(UNREACHABLE) && MajorStopped(UNREACHABLE, STOPPED, {}, [], Stop(2, 0)) && RefusedAt(UNREACHABLE, Stop(2, 0))
    ensures ValidOutside(STOPPED, {REGISTRY, KEEPER, TARGET}) && MinorCollected(STOPPED, QUEUED, {}, [REGISTRY])
    ensures QUEUED.pending == [Record(REGISTRY, None)]
    ensures KEPT !in QUEUED.objects && Met(MajorProblem(QUEUED), KEPT)
  {
    hide Valid, MajorStopped, MinorCollected, RefusedAt, Met, MajorPartly, ValidOutside;
    UnreachableValid();
    SweepStopped();
    RecordQueued();
    StoppedOutside();
    KeptMet();
  }

  lemma StoppedOutside()
    ensures ValidOutside(STOPPED, {REGISTRY, KEEPER, TARGET})
  {
    assert Trim(STOPPED, {REGISTRY, KEEPER, TARGET}).objects == map[];
    assert RecordRefs([]) == {};
  }

  lemma KeptMet()
    ensures Met(MajorProblem(QUEUED), KEPT)
  {
    hide Closed;
    var p := MajorProblem(QUEUED);
    assert REGISTRY in {QUEUED.pending[0].owner} + OptionRefs(QUEUED.pending[0].held);
    SeedForced(p, REGISTRY);
    assert Traced(p, REGISTRY);
    forall t: set<Ref> | Closed(p, t) ensures KEEPER in t {
      KeeperClosed(p, t);
    }
    assert Traced(p, KEEPER);
    assert KEPT in Refs(p.objects[KEEPER][0]);
  }

  lemma KeeperClosed(p: Problem, t: set<Ref>)
    requires p == MajorProblem(QUEUED) && Closed(p, t) && REGISTRY in p.seeds
    ensures KEEPER in t
  {
    assert REGISTRY in p.seeds * p.scope && REGISTRY in t;
    assert StrongClosed(p, t, p.objects[REGISTRY]);
    assert Included(p, t, StrongTarget(p.objects[REGISTRY][1]));
  }
}
