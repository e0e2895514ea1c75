/** The tri-color invariant over values: who is white, gray and black, and what the owner worklist records. */
module GcTricolor {
  import opened GcObjects
  import opened GcLiveness
  import opened GcWeakPhases

  function References(owners: seq<WeakOwner>): (refs: seq<Ref>)
    ensures |refs| == |owners|
  {
    seq(|owners|, i requires 0 <= i < |owners| => owners[i].reference)
  }

  ghost predicate Colored(marks: set<Ref>, gray: seq<Ref>, done: set<Ref>, hand: set<Ref>, sources: set<Ref>) {
    && NoDuplicates(gray) && Elements(gray) <= marks
    && done !! Elements(gray) && hand !! Elements(gray) && hand !! done
    && marks <= done + Elements(gray) + hand
    && done <= marks + sources && hand <= marks + sources
  }

  ghost predicate Blackened(p: Problem, marks: set<Ref>, done: set<Ref>) {
    forall r | r in done :: r in p.objects && StrongClosed(p, marks, p.objects[r])
  }

  ghost predicate FlagsMatch(owner: WeakOwner, o: Object) {
    && owner.hasWeak == AnyWeak(o)
    && owner.hasEphemeron == AnyEphemeron(o)
    && owner.hasFinalization == AnyFinalization(o)
  }

  ghost predicate OwnersRecorded(p: Problem, owners: seq<WeakOwner>, done: set<Ref>) {
    && NoDuplicates(References(owners))
    && (forall i | 0 <= i < |owners| ::
          && owners[i].reference in done && owners[i].reference in p.objects
          && FlagsMatch(owners[i], p.objects[owners[i].reference])
          && IsWeakOwner(p.objects[owners[i].reference]))
    && (forall r | r in done && r in p.objects && IsWeakOwner(p.objects[r]) :: r in References(owners))
  }

  lemma ColoredPush(marks: set<Ref>, gray: seq<Ref>, done: set<Ref>, hand: set<Ref>, sources: set<Ref>, r: Ref)
    requires Colored(marks, gray, done, hand, sources) && r !in marks && r !in sources
    ensures Colored(marks + {r}, gray + [r], done, hand, sources)
  {
    assert Elements(gray + [r]) == Elements(gray) + {r};
  }

  lemma ColoredPop(marks: set<Ref>, gray: seq<Ref>, done: set<Ref>, sources: set<Ref>)
    requires Colored(marks, gray, done, {}, sources) && gray != []
    ensures Colored(marks, gray[..|gray| - 1], done, {gray[|gray| - 1]}, sources)
    ensures gray[|gray| - 1] in marks
  {
    assert Elements(gray) == Elements(gray[..|gray| - 1]) + {gray[|gray| - 1]};
  }

  lemma HandLive(marks: set<Ref>, gray: seq<Ref>, done: set<Ref>, sources: set<Ref>, x: Ref)
    requires Colored(marks, gray, done, {x}, sources)
    ensures x in marks || x in sources
  {
    assert x in {x};
  }

  lemma ColoredDone(marks: set<Ref>, gray: seq<Ref>, done: set<Ref>, sources: set<Ref>, x: Ref)
    requires Colored(marks, gray, done, {x}, sources)
    ensures Colored(marks, gray, done + {x}, {}, sources) && x !in done
  {
    assert x in {x};
  }

  lemma BlackenedDone(p: Problem, marks: set<Ref>, done: set<Ref>, x: Ref)
    requires Blackened(p, marks, done) && x in p.objects && StrongClosed(p, marks, p.objects[x])
    ensures Blackened(p, marks, done + {x})
  {
  }

  lemma BlackenedMonotone(p: Problem, s: set<Ref>, t: set<Ref>, done: set<Ref>)
    requires Blackened(p, s, done) && s <= t
    ensures Blackened(p, t, done)
  {
    forall x | x in done ensures StrongClosed(p, t, p.objects[x]) {
      StrongClosedMonotone(p, s, t, p.objects[x]);
    }
  }

  /** Adding a traced object that carries weak items to the worklist. */
  lemma OwnersExtended(p: Problem, owners: seq<WeakOwner>, done: set<Ref>, owner: WeakOwner)
    requires OwnersRecorded(p, owners, done) && owner.reference !in done && owner.reference in p.objects
    requires FlagsMatch(owner, p.objects[owner.reference]) && IsWeakOwner(p.objects[owner.reference])
    ensures OwnersRecorded(p, owners + [owner], done + {owner.reference})
  {
    var x := owner.reference;
    assert References(owners + [owner]) == References(owners) + [x];
    forall i | 0 <= i < |owners| ensures References(owners)[i] != x { assert owners[i].reference in done; }
  }

  lemma OwnersUnchanged(p: Problem, owners: seq<WeakOwner>, done: set<Ref>, x: Ref)
    requires OwnersRecorded(p, owners, done) && x in p.objects && !IsWeakOwner(p.objects[x])
    ensures OwnersRecorded(p, owners, done + {x})
  {
  }

  ghost predicate EphemeronPassed(p: Problem, before: set<Ref>, after: set<Ref>, slot: Slot) {
    EphemeronActive(slot) && Live(p, before, slot.key.value) ==> Included(p, after, slot.value)
  }

  ghost predicate EphemeronsPassed(p: Problem, before: set<Ref>, after: set<Ref>, o: Object) {
    forall i | 0 <= i < |o| :: EphemeronPassed(p, before, after, o[i])
  }

  lemma EphemeronsPassedMonotone(p: Problem, s: set<Ref>, t: set<Ref>, s': set<Ref>, t': set<Ref>, o: Object)
    requires EphemeronsPassed(p, s, t, o) && s' <= s && t <= t'
    ensures EphemeronsPassed(p, s', t', o)
  {
    forall i | 0 <= i < |o| ensures EphemeronPassed(p, s', t', o[i]) {
      assert EphemeronPassed(p, s, t, o[i]);
    }
  }

  lemma OwnerLive(marks: set<Ref>, gray: seq<Ref>, done: set<Ref>, sources: set<Ref>, x: Ref)
    requires Colored(marks, gray, done, {}, sources) && x in done
    ensures x in marks || x in sources
  {
  }

  /** When a pass over all ephemeron owners marked nothing, the marks are closed. */
  lemma EphemeronFixpoint(p: Problem, marks: set<Ref>, gray: seq<Ref>, done: set<Ref>, owners: seq<WeakOwner>)
    requires marks <= p.scope && p.seeds * p.scope <= marks && p.sources <= done
    requires Colored(marks, gray, done, {}, p.sources) && gray == []
    requires Blackened(p, marks, done) && OwnersRecorded(p, owners, done)
    requires forall j | 0 <= j < |owners| && owners[j].hasEphemeron ::
               EphemeronsPassed(p, marks, marks, p.objects[owners[j].reference])
    ensures Closed(p, marks) && done == marks + p.sources
  {
    assert Elements(gray) == {};
    forall r | r in p.objects && (r in marks || r in p.sources)
      ensures EphemeronClosed(p, marks, p.objects[r])
    {
      if AnyEphemeron(p.objects[r]) {
        var j :| 0 <= j < |owners| && References(owners)[j] == r;
        assert FlagsMatch(owners[j], p.objects[r]);
        assert EphemeronsPassed(p, marks, marks, p.objects[r]);
      }
    }
  }

  lemma WorklistFacts(p: Problem, marks: set<Ref>, refs: seq<Ref>)
    requires OwnerWorklist(p, marks, refs)
    ensures NoDuplicates(refs) && forall x | x in refs :: x in p.objects && (x in marks || x in p.sources)
  {
  }

  lemma OwnerFlags(p: Problem, owners: seq<WeakOwner>, done: set<Ref>, j: nat)
    requires OwnersRecorded(p, owners, done) && j < |owners|
    ensures owners[j].reference in p.objects && FlagsMatch(owners[j], p.objects[owners[j].reference])
  {
  }

  lemma NothingCleared(p: Problem, dead: set<Ref>)
    ensures Cleared(p, dead, []) == p.objects
  {
  }

  lemma NothingFinalized(p: Problem, dead: set<Ref>, refs: seq<Ref>)
    requires forall x | x in refs :: x in p.objects
    ensures Finalized(p, dead, refs, refs[..0]) == Cleared(p, dead, refs)
    ensures OwnerRecords(dead, p.objects, refs[..0]) == []
  {
  }

  lemma AllShrunkAt(objects': map<Ref, Object>, objects: map<Ref, Object>, x: Ref)
    requires AllShrunk(objects', objects) && x in objects
    ensures x in objects' && ObjectShrunk(objects'[x], objects[x])
  {
  }

  lemma {:induction false} OwnerRecordsLive(p: Problem, marks: set<Ref>, refs: seq<Ref>)
    requires forall x | x in refs :: x in p.objects && (x in marks || x in p.sources)
    ensures RecordsLive(p, marks, OwnerRecords(p.scope - marks, p.objects, refs))
  {
    if refs != [] {
      OwnerRecordsLive(p, marks, refs[..|refs| - 1]);
      var x := refs[|refs| - 1];
      ObjectRecordsLive(p, marks, p.scope - marks, x, p.objects[x]);
    }
  }

  /** The records published before the queue refused one more. */
  lemma AbortedRecordsLive(p: Problem, marks: set<Ref>, refs: seq<Ref>, j: nat, k: nat)
    requires j < |refs| && forall x | x in refs :: x in p.objects && (x in marks || x in p.sources)
    requires k <= |ClearObject(p.scope - marks, p.objects[refs[j]])|
    ensures RecordsLive(p, marks, OwnerRecords(p.scope - marks, p.objects, refs[..j])
              + ObjectRecords(p.scope - marks, refs[j], ClearObject(p.scope - marks, p.objects[refs[j]])[..k]))
  {
    var dead := p.scope - marks;
    OwnerRecordsLive(p, marks, refs[..j]);
    var x := refs[j];
    var o := ClearObject(dead, p.objects[x])[..k];
    ObjectRecordsLive(p, marks, dead, x, o);
  }

  ghost function RecordRefs(records: seq<Record>): set<Ref> {
    set i, r | 0 <= i < |records| && r in {records[i].owner} + OptionRefs(records[i].held) :: r
  }

  /** A source the minor collection must scan: on a dirty Old card, or a remembered large owner. */
  predicate OnDirtyCard(spans: map<nat, Span>, r: Ref) {
    r.span in spans &&
    match spans[r.span]
    case Small(space, _, cards) => space == Old && Card(r) in cards
    case Large(remembered) => remembered
  }

  ghost function DirtySources(objects: map<Ref, Object>, spans: map<nat, Span>, chain: seq<nat>): set<Ref> {
    set r | r in objects && r.span in chain && OnDirtyCard(spans, r)
  }

  ghost function Visited(sources: set<Ref>, chain: seq<nat>): set<Ref> {
    set r | r in sources && r.span in chain
  }

  lemma DirtySourcesOnChain(objects: map<Ref, Object>, spans: map<nat, Span>, chain: seq<nat>)
    ensures Visited(DirtySources(objects, spans, chain), chain) == DirtySources(objects, spans, chain)
  {
  }

  lemma SpanSources(objects: map<Ref, Object>, spans: map<nat, Span>, chain: seq<nat>, k: nat, candidates: set<Ref>)
    requires k < |chain| && NoDuplicates(chain)
    requires candidates == set r | r in objects && r.span == chain[k] && OnDirtyCard(spans, r)
    ensures candidates <= DirtySources(objects, spans, chain) && candidates <= objects.Keys
    ensures candidates !! Visited(DirtySources(objects, spans, chain), chain[..k])
    ensures Visited(DirtySources(objects, spans, chain), chain[..k]) + candidates
            == Visited(DirtySources(objects, spans, chain), chain[..k + 1])
    ensures forall r, q | r in candidates && q in candidates && r.offset == q.offset :: r == q
  {
    assert chain[..k + 1] == chain[..k] + [chain[k]];
  }

  lemma SeedForced(p: Problem, r: Ref)
    requires r in p.seeds
    ensures Forced(p, r) && Met(p, r)
  {
    forall t: set<Ref> | Closed(p, t) && r in p.scope ensures r in t {
      assert r in p.seeds * p.scope;
    }
  }

  lemma ColoredTake(p: Problem, marks: set<Ref>, gray: seq<Ref>, done: set<Ref>, x: Ref)
    requires WellPosed(p) && marks <= p.scope && Colored(marks, gray, done, {}, p.sources)
    requires x in p.sources && x !in done
    ensures Colored(marks, gray, done, {x}, p.sources) && x in p.objects
  {
  }

  lemma WorklistComplete(p: Problem, marks: set<Ref>, owners: seq<WeakOwner>)
    requires WellPosed(p) && marks <= p.scope && OwnersRecorded(p, owners, marks + p.sources)
    ensures OwnerWorklist(p, marks, References(owners))
  {
    forall r | r in References(owners)
      ensures r in p.objects && (r in marks || r in p.sources) && IsWeakOwner(p.objects[r])
    {
      var i :| 0 <= i < |owners| && owners[i].reference == r;
      assert owners[i].reference in marks + p.sources;
    }
  }
}
