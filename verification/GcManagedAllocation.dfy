/**
 * Allocation that collects first. The pending payload is traced as a root, so its strong edges
 * survive; its weak edges are neither marked nor cleared, because no weak owner exists for it yet.
 */
module GcManagedAllocation {
  import opened Options
  import opened GcObjects
  import opened GcLiveness
  import opened GcWeakPhases
  import opened GcGenerations
  import opened GcCollections
  import opened GcRuns

  /** References of a slot that strong tracing does not visit. */
  function WeakRefs(s: Slot): set<Ref> {
    match s
    case Strong(_) => {}
    case Weak(t) => OptionRefs(t)
    case Ephemeron(k, v) => OptionRefs(k) + OptionRefs(v)
    case Finalization(t, _) => OptionRefs(t)
  }

  /** What tracing the pending payload adds to the root set. */
  function StrongRefs(o: Object): seq<Ref> {
    if o == [] then []
    else
      var t := StrongTarget(o[|o| - 1]);
      StrongRefs(o[..|o| - 1]) + if t.Some? then [t.value] else []
  }

  lemma {:induction false} StrongRefsVisited(o: Object, i: nat)
    requires i < |o| && StrongTarget(o[i]).Some?
    ensures StrongTarget(o[i]).value in StrongRefs(o)
  {
    if i < |o| - 1 {
      StrongRefsVisited(o[..|o| - 1], i);
    }
  }

  /** The state the collection runs on: the pending payload's strong edges are extra roots. */
  ghost function WithPayloadRoots(s: State, o: Object): State { s.(roots := s.roots + StrongRefs(o)) }

  /** What a closed mark guarantees the payload: the targets of its strong slots are live. */
  lemma StrongRefsMarked(p: Problem, s: State, marks: set<Ref>, o: Object, i: nat, r: Ref)
    requires p.objects == s.objects && p.seeds == Seeds(WithPayloadRoots(s, o)) && Closed(p, marks)
    requires i < |o| && StrongTarget(o[i]) == Some(r)
    ensures r in p.scope ==> r in marks
  {
    StrongRefsVisited(o, i);
    assert r in WithPayloadRoots(s, o).roots;
    assert r in p.scope ==> r in p.seeds * p.scope;
  }

  /** Every reference of a slot is strong or weak. */
  lemma RefsSplit(slot: Slot)
    ensures Refs(slot) == OptionRefs(StrongTarget(slot)) + WeakRefs(slot)
  {
  }

  /** The survivors keep the payload publishable exactly when they include its weak references. */
  lemma PublishableIffWeakLive(p: Problem, s: State, objects: map<Ref, Object>, marks: set<Ref>, o: Object)
    requires p.objects == s.objects && p.seeds == Seeds(WithPayloadRoots(s, o)) && Closed(p, marks)
    requires Publishable(s, o) && objects.Keys == s.objects.Keys - (p.scope - marks)
    ensures PayloadAllocated(objects, o) && Inert(o) <==> forall i | 0 <= i < |o| :: WeakRefs(o[i]) !! (p.scope - marks)
  {
    hide Closed, Seeds;
    forall i | 0 <= i < |o| ensures Refs(o[i]) <= objects.Keys <==> WeakRefs(o[i]) !! (p.scope - marks) {
      RefsSplit(o[i]);
      assert Refs(o[i]) <= s.objects.Keys;
      if StrongTarget(o[i]).Some? {
        StrongRefsMarked(p, s, marks, o, i, StrongTarget(o[i]).value);
      }
    }
  }

  /** Every weak reference of the payload is reachable for some other reason, or out of the collection's scope. */
  ghost predicate WeakRefsForced(p: Problem, o: Object) {
    forall i, r | 0 <= i < |o| && r in WeakRefs(o[i]) :: Forced(p, r)
  }

  /** The marked objects are those every closed set contains, so liveness can be told before collecting. */
  lemma ForcedIffMarked(p: Problem, marks: set<Ref>, o: Object)
    requires LeastClosed(p, marks)
    ensures WeakRefsForced(p, o) <==> forall i | 0 <= i < |o| :: WeakRefs(o[i]) !! (p.scope - marks)
  {
    hide Closed;
    forall r ensures Forced(p, r) <==> r !in p.scope - marks {
      if r in marks {
        assert forall t: set<Ref> | Closed(p, t) :: marks <= t;
      }
    }
  }

  /**
   * After a minor collection the payload is publishable exactly when, before it, each weak reference
   * of the payload named an Old object or a Young one reachable from roots, pending records, dirty
   * sources or the payload's own strong edges.
   */
  lemma PublishableAfterMinor(s: State, s': State, marks: set<Ref>, owners: seq<Ref>, o: Object)
    requires Publishable(s, o) && MinorCollected(WithPayloadRoots(s, o), s', marks, owners)
    ensures Publishable(s', o) <==> WeakRefsForced(MinorProblem(WithPayloadRoots(s, o)), o)
  {
    hide SweptSpans, PreparedSpans, RebuiltSpans, OwnerRecords, OwnerWorklist, Seeds, Closed, Below, PayloadAllocated, Inert;
    var p := MinorProblem(WithPayloadRoots(s, o));
    AfterWeakPhasesShrinks(p, marks);
    ForcedIffMarked(p, marks, o);
    PublishableIffWeakLive(p, s, s'.objects, marks, o);
  }

  /** The same for a major collection, in whose scope every object is. */
  lemma PublishableAfterMajor(s: State, s': State, marks: set<Ref>, owners: seq<Ref>, o: Object)
    requires Publishable(s, o) && MajorCollected(WithPayloadRoots(s, o), s', marks, owners)
    ensures Publishable(s', o) <==> WeakRefsForced(MajorProblem(WithPayloadRoots(s, o)), o)
    ensures Publishable(s', o) <==> forall i | 0 <= i < |o| :: WeakRefs(o[i]) <= marks
  {
    hide OwnerRecords, OwnerWorklist, Seeds, Closed, Below, Inert;
    var p := MajorProblem(WithPayloadRoots(s, o));
    AfterWeakPhasesShrinks(p, marks);
    ForcedIffMarked(p, marks, o);
    PublishableIffWeakLive(p, s, s'.objects, marks, o);
    forall i | 0 <= i < |o| ensures WeakRefs(o[i]) <= marks <==> WeakRefs(o[i]) !! (p.scope - marks) {
      RefsSplit(o[i]);
      assert Refs(o[i]) <= s.objects.Keys;
    }
  }

  /** A payload whose only reference is weak, to an object nothing else holds, is published dangling. */
  lemma WeakPayloadDangles()
    ensures exists s, s', o, marks, owners ::
      && Valid(WithPayloadRoots(s, o)) && Publishable(s, o)
      && MinorCollected(WithPayloadRoots(s, o), s', marks, owners) && !Publishable(s', o)
  {
    hide Valid, MinorCollected;
    var a := Ref(0, 16);
    var o: Object := [Weak(Some(a))];
    var s := State(map[a := []], map[0 := Small(Eden, 15, {})], [], [0], [], []);
    var s' := EMPTY;
    assert StrongRefs(o[..0]) == [] && WithPayloadRoots(s, o) == s;
    WeakTargetSwept();
    assert a in Refs(o[0]) && a !in s'.objects;
  }

  lemma WeakTargetSwept()
    ensures var s := State(map[Ref(0, 16) := []], map[0 := Small(Eden, 15, {})], [], [0], [], []);
      Valid(s) && MinorCollected(s, EMPTY, {}, [])
  {
    var a := Ref(0, 16);
    var s := State(map[a := []], map[0 := Small(Eden, 15, {})], [], [0], [], []);
    var p := MinorProblem(s);
    assert p.seeds == {} && p.sources == {} && p.scope == {a};
    assert Closed(p, {});
    assert AfterWeakPhases(p, {}) == s.objects;
    assert LiveIn({}, 0) == {};
  }
}
