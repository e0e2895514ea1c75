/**
 * Setting garbage aside: dead objects that a sweep left behind change neither what the next mark
 * computes nor what its weak phases do to everything else.
 */
module GcGarbage {
  import opened GcObjects
  import opened GcLiveness
  import opened GcWeakPhases
  import opened GcCollections

  /** The marking problem without the garbage. */
  ghost function TrimmedProblem(p: Problem, g: set<Ref>): Problem {
    Problem(Without(p.objects, g), p.scope - g, p.seeds, p.sources)
  }

  /** Nothing outside the garbage names it. */
  ghost predicate Separate(p: Problem, g: set<Ref>) {
    && p.scope <= p.objects.Keys && p.sources <= p.objects.Keys
    && p.seeds !! g && p.sources !! g
    && forall r, i | r in p.objects && r !in g && 0 <= i < |p.objects[r]| :: Refs(p.objects[r][i]) !! g
  }

  lemma SameSlotClosure(p: Problem, g: set<Ref>, t: set<Ref>, slot: Slot)
    requires t !! g && Refs(slot) !! g
    ensures Included(TrimmedProblem(p, g), t, StrongTarget(slot)) <==> Included(p, t, StrongTarget(slot))
    ensures EphemeronSlotClosed(TrimmedProblem(p, g), t, slot) <==> EphemeronSlotClosed(p, t, slot)
  {
  }

  /** Sets without garbage are closed for both problems or for neither. */
  lemma SameClosedSets(p: Problem, g: set<Ref>, t: set<Ref>)
    requires Separate(p, g) && t !! g
    ensures Closed(TrimmedProblem(p, g), t) <==> Closed(p, t)
  {
    hide Included, EphemeronSlotClosed;
    var q := TrimmedProblem(p, g);
    assert p.seeds * p.scope == q.seeds * q.scope;
    forall r | r in p.objects && (r in t || r in p.sources)
      ensures r in q.objects && q.objects[r] == p.objects[r]
      ensures StrongClosed(q, t, p.objects[r]) <==> StrongClosed(p, t, p.objects[r])
      ensures EphemeronClosed(q, t, p.objects[r]) <==> EphemeronClosed(p, t, p.objects[r])
    {
      SameObjectClosure(p, g, t, p.objects[r]);
    }
  }

  lemma SameObjectClosure(p: Problem, g: set<Ref>, t: set<Ref>, o: Object)
    requires t !! g && forall i | 0 <= i < |o| :: Refs(o[i]) !! g
    ensures StrongClosed(TrimmedProblem(p, g), t, o) <==> StrongClosed(p, t, o)
    ensures EphemeronClosed(TrimmedProblem(p, g), t, o) <==> EphemeronClosed(p, t, o)
  {
    hide Included, EphemeronSlotClosed;
    forall i | 0 <= i < |o|
      ensures Included(TrimmedProblem(p, g), t, StrongTarget(o[i])) <==> Included(p, t, StrongTarget(o[i]))
      ensures EphemeronSlotClosed(TrimmedProblem(p, g), t, o[i]) <==> EphemeronSlotClosed(p, t, o[i])
    {
      SameSlotClosure(p, g, t, o[i]);
    }
  }

  /** Everything but the garbage is closed, so a mark stays out of it. */
  lemma RestClosed(p: Problem, g: set<Ref>)
    requires Separate(p, g)
    ensures Closed(p, p.scope - g)
  {
    var t := p.scope - g;
    forall r | r in p.objects && (r in t || r in p.sources)
      ensures StrongClosed(p, t, p.objects[r]) && EphemeronClosed(p, t, p.objects[r])
    {
      forall i | 0 <= i < |p.objects[r]|
        ensures Included(p, t, StrongTarget(p.objects[r][i])) && EphemeronSlotClosed(p, t, p.objects[r][i])
      {
        assert Refs(p.objects[r][i]) !! g;
      }
    }
  }

  /** Marks visit no garbage. */
  lemma TracedOutside(p: Problem, g: set<Ref>, x: Ref)
    requires Separate(p, g) && Traced(p, x)
    ensures x !in g
  {
    hide Closed;
    RestClosed(p, g);
    if x in p.scope && Forced(p, x) {
      assert x in p.scope - g;
    }
  }

  /** The mark of the whole heap is the mark of the heap without its garbage. */
  lemma SameMarks(p: Problem, g: set<Ref>, marks: set<Ref>)
    requires Separate(p, g) && LeastClosed(p, marks)
    ensures marks !! g && LeastClosed(TrimmedProblem(p, g), marks)
  {
    hide Closed;
    var q := TrimmedProblem(p, g);
    RestClosed(p, g);
    SameClosedSets(p, g, marks);
    forall t: set<Ref> | Closed(q, t) ensures marks <= t {
      ClosedInScope(q, t);
      SameClosedSets(p, g, t);
    }
  }

  lemma ClosedInScope(p: Problem, t: set<Ref>)
    requires Closed(p, t)
    ensures t <= p.scope
  {
  }

  // ----- The weak phases -----

  lemma SameClearing(dead: set<Ref>, g: set<Ref>, o: Object)
    requires forall i | 0 <= i < |o| :: Refs(o[i]) !! g
    ensures ClearObject(dead - g, o) == ClearObject(dead, o) && FinalizeObject(dead - g, o) == FinalizeObject(dead, o)
  {
    forall i | 0 <= i < |o|
      ensures ClearSlot(dead - g, o[i]) == ClearSlot(dead, o[i]) && FinalizeSlot(dead - g, o[i]) == FinalizeSlot(dead, o[i])
    {
      assert Refs(o[i]) !! g;
    }
  }

  lemma ClearedRefs(dead: set<Ref>, g: set<Ref>, o: Object)
    requires forall i | 0 <= i < |o| :: Refs(o[i]) !! g
    ensures forall i | 0 <= i < |o| :: Refs(ClearObject(dead, o)[i]) !! g
  {
    forall i | 0 <= i < |o| ensures Refs(ClearObject(dead, o)[i]) !! g {
      assert Refs(o[i]) !! g;
    }
  }

  lemma {:induction false} SameRecords(dead: set<Ref>, g: set<Ref>, x: Ref, o: Object)
    requires forall i | 0 <= i < |o| :: Refs(o[i]) !! g
    ensures ObjectRecords(dead - g, x, o) == ObjectRecords(dead, x, o)
  {
    if o != [] {
      SameRecords(dead, g, x, o[..|o| - 1]);
      assert Refs(o[|o| - 1]) !! g;
    }
  }

  lemma {:induction false} SameOwnerRecords(p: Problem, g: set<Ref>, marks: set<Ref>, owners: seq<Ref>)
    requires Separate(p, g) && forall x | x in owners :: x in p.objects && x !in g
    ensures forall x | x in owners :: x in TrimmedProblem(p, g).objects
    ensures OwnerRecords(p.scope - g - marks, Without(p.objects, g), owners) == OwnerRecords(p.scope - marks, p.objects, owners)
  {
    if owners != [] {
      var x := owners[|owners| - 1];
      SameOwnerRecords(p, g, marks, owners[..|owners| - 1]);
      SameRecords(p.scope - marks, g, x, p.objects[x]);
      assert p.scope - g - marks == p.scope - marks - g;
    }
  }

  /** Owners and payloads outside the garbage come out the same. */
  lemma SameWeakPhases(p: Problem, g: set<Ref>, marks: set<Ref>, owners: seq<Ref>)
    requires Separate(p, g) && marks !! g && OwnerWorklist(p, marks, owners)
    ensures OwnerWorklist(TrimmedProblem(p, g), marks, owners)
    ensures AfterWeakPhases(TrimmedProblem(p, g), marks) == Without(AfterWeakPhases(p, marks), g)
    ensures OwnerRecords(p.scope - g - marks, Without(p.objects, g), owners) == OwnerRecords(p.scope - marks, p.objects, owners)
  {
    hide ClearObject, FinalizeObject, IsWeakOwner, OwnerRecords;
    var q := TrimmedProblem(p, g);
    SameOwnerRecords(p, g, marks, owners);
    assert q.scope - marks == p.scope - marks - g;
    forall r | r in q.objects ensures AfterWeakPhases(q, marks)[r] == AfterWeakPhases(p, marks)[r] {
      SameClearing(p.scope - marks, g, p.objects[r]);
      ClearedRefs(p.scope - marks, g, p.objects[r]);
      SameClearing(p.scope - marks, g, ClearObject(p.scope - marks, p.objects[r]));
    }
  }
}
